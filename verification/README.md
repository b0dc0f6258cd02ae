# An in-system flash programmer, verified

This project models a hobby flash programmer, host application and firmware, and the
parts of the ChibiOS kernel and HAL its firmware is built on, and proves what they
promise. It has five parts.

1. **The flashing protocol, end to end.** `HexImage` loads an Intel HEX file;
   `HostProtocol` is the application's window and serial thread; `CommandLoop` and
   `Programming` are the firmware, down to each edge of its two programming pins;
   `IsspTarget` is the target chip, a shift register that cuts what it samples into
   22-bit frames. `IsspFrames`, `IsspOperations` and `IsspVectors` say what the bits
   sent do to the target, `FlashProtocol` is the firmware as a machine driven by single
   bytes, `FlashCommands` says what each of its commands does and answers, and
   `FlashRun` puts window, serial thread, link, input queue, firmware and target
   together and covers every interleaving of a run. `FileToFlash` joins the two ends;
   `FlashSuccess` shows that every run succeeds on an `ObligingTarget`: one whose
   executions all act and are acknowledged in time, whose flash keeps what it is given,
   and whose opaque vectors keep buffer and flash and leave the right id behind.
2. **Serial over USB.** `OutputStream` and `InputStream` are the two directions as
   machines over whole steps, with theorems over all runs. `OutputBuffers`,
   `InputBuffers` and `BufferMemory` are the rings of length-prefixed buffers in one
   block of memory; `SerialUsbOutput` and `SerialUsbInput` are the driver's callbacks
   and the thread's chunked loops, interrupts coming in wherever the lock is released,
   and each of their methods is a run of the machine.
3. **Control transfers on USB endpoint zero.** `ControlPipe` is the state machine,
   `ControlRead` and `ControlWrite` are whole transfers in the two directions,
   `StandardRequests` what the standard requests do and answer over whole runs, and
   `UsbDriver` the driver object whose callbacks take exactly the machine's steps.
4. **Byte queues and time windows.** `ByteQueues` and `Deadlines`, and `Wakeups`: what
   the interrupts make of a reader asleep on an empty queue, what its wait returns and
   how a read or write may end short.
5. **Kernels.** `ThreadQueues` (the scheduler's circular doubly linked lists, on the
   heap), `Crc7` and `CardSlices`, on top of `Bits`, `Streams` and `Arithmetic`.

## What the model assumes

- The link between host and firmware is lossless and ordered. The host is a single
  flashing run started from idle.
- The target (`IsspTarget.World`) is left open wherever the source is silent: whether
  an execution takes effect, when it acknowledges, what a flash block really holds
  after programming, what a reset and the long initialize, erase and security vectors
  do. The one promise is that SDATA stays low unless the last execution took effect,
  and that the program, read-back and checksum vectors do what they are named for.
- Interrupts come in any order and number whenever the lock is not held. A wait ends
  with success only once there is something to find, unless a reset overtakes the
  woken thread, which happens finitely often while it waits; it ends with a timeout
  only once the time asked for has passed, and with a reset only if a reset or a
  suspension is the first to resume it. A sleep that nothing else ends lasts until the
  next byte, or the next suspension. One thread uses each queue. Received transfers are
  not empty, as `hal_buffers.c` demands of its callers. A reset starts a new epoch. Endpoint numbers of the two bulk directions are
  the same, since `hal_serial_usb.c:64` tests the receiving bit with the transmitting
  endpoint's number. A bus reset is modelled together with the configuration that ends
  it.
- On endpoint zero a SETUP packet makes the controller drop what is outstanding, a
  request hook that accepts a request prepares a transfer and stalls no endpoint, the
  status stage is done by software and the address is set late, as in the port's
  configuration.
- A shift of a 32-bit one by 32 in `hal_mmcsd.c:73` is taken to give zero, so that the
  mask has all its bits.

## What was found

- **Output can stall for good.** A buffer posted while the bus is suspended is not
  started by the wakeup, and the start-of-frame flush only helps when nothing is
  posted. `OutputStream.StallsExactly` says over all runs when output is stalled;
  `DeadlockExactly` that it is stuck for good exactly with all buffers full, where the
  writer waits for ever; `DeadlockIsReachable` gives a run.
- **Input can go deaf for good**, for the same reason, when a full ring is drained
  during a suspension: `InputStream.DeafExactly`, `DeafnessExactly` and
  `DeafnessIsReachable`.
- **A loaded file need not be complete.** `HexImage.CompleteExactly` and `WholeExactly`
  say which are. What a file does not bring is left from the one before, and is flashed
  (`FileToFlash.FileReachesFlash`).
- **A reset can lengthen a read.** A reader that is woken because something was put in,
  and then overtaken by a reset, finds nothing and waits again. `iqGetTimeout` and
  `ibqGetFullBufferTimeoutS` then wait for the time computed before, past the deadline
  by what has gone by since, as often as that happens. `Wakeups.OvertakenExactly` and
  `LateExactly` say exactly when, `SerialUsbInput.LateRead` and
  `Wakeups.LateWithoutBound` that it happens. `iqReadTimeout` computes the time anew
  after each wakeup and is never late (`ByteQueues.InputQueue.ReadTimeout`).
- **A deadline can be missed** when a thread wakes a whole turn of the 16-bit tick
  counter late (`Deadlines.ExpiryMissed`).
- **The serial thread never clears its message**, so a second reply in the buffer would
  be answered as the first (`HostProtocol.LaterRepliesRepeatTheFirst`); stop-and-wait
  keeps that from happening (`FlashRun.StopAndWait`).
- **A configuration can stick.** SET_CONFIGURATION with 0 does nothing unless the
  device is active, so a configured device that is given an address goes on reporting
  its configuration after the host has asked for none:
  `StandardRequests.ConfigurationExactly` and `ConfigurationSticks`.
- **A wakeup restores a state that a bus reset has ended.** When a suspended device is
  reset and the wakeup is handled after the reset, as the interrupt handler of the port
  does, the device is active without a configuration (`StandardRequests.StaleWakeup`).
- **A version 2.0 card of the largest size code** is reported as having no capacity.
- The checksum vector contains a block select among its frames. `_mmcsd_get_slice` is
  documented to align its result to the left; the code aligns it to the right, and the
  model follows the code.

## Model

| member | source | states |
|---|---|---|
| `Bits.ByteRoundTrip` | HSSPFirmware/hssp/issp.c:380-419 | the eight bits a byte is sent as, read back most significant first, are that byte |
| `IsspFrames.AddressRoundTrip` | HSSPFirmware/hssp/issp.c:594-632 | the shifted address byte of a write frame carries exactly the block-buffer index, for all 64 indices |
| `IsspFrames.WriteByteFrame` | HSSPFirmware/hssp/issp.c:594-632 | a target at a frame boundary takes a 22-bit write frame as the write of that byte at that index and nothing else |
| `IsspFrames.SetBlockFrame` | HSSPFirmware/hssp/issp.c:637-650 | a set-block frame selects exactly that block and leaves the rest of the target alone |
| `IsspFrames.ProgramQueues` | HSSPFirmware/hssp/issp.c:37-50 | the 14 frames of the program vector are none of them writes, block selects or reads: the target queues them all |
| `IsspFrames.ChecksumVector` | HSSPFirmware/hssp/issp.c:21-34 | the checksum vector selects block 0 on its way (its tenth frame) and queues the rest |
| `IsspFrames.ReadByteEffect` | HSSPFirmware/hssp/issp.c:671-741 | reading a byte returns the target's byte at the index asked for, and leaves the target in the middle of the read frame |
| `IsspFrames.ReadResultEffect` | HSSPFirmware/hssp/issp.c:746-796 | reading a result register returns its value and leaves memory alone |
| `IsspOperations.LoadEffect` | HSSPFirmware/hssp/issp.c:594-632 | for every buffer and every prefix: the target recovers from the bits sent exactly the writes (i, data[i]) in order |
| `IsspOperations.HandshakeAligns` | HSSPFirmware/hssp/issp.c:320-359 | whatever was sent, after the acknowledge the forty zero bits bring the target back to a frame boundary with nothing queued |
| `IsspOperations.TagsDiffer` | HSSPFirmware/hssp/issp.c:21-50 | the program, read-back and checksum vectors are told apart by the target |
| `IsspOperations.ProgramMeaning` | HSSPFirmware/hssp/issp.c:637-666 | a successful block program puts the block buffer into block k of the flash and touches no other block |
| `IsspOperations.VerifyMeaning` | HSSPFirmware/hssp/issp.c:671-741 | a block verify leaves the flash alone and succeeds if and only if it is acknowledged and block k equals the 64 bytes |
| `IsspOperations.ChecksumMeaning` | HSSPFirmware/hssp/issp.c:746-796 | a successful checksum operation yields the sum of all flash bytes modulo 65536 |
| `IsspOperations.OtherOperationsAlign` | HSSPFirmware/hssp/issp.c:457-589 | initialize, silicon id, erase and both security operations end at a frame boundary whenever they succeed, whatever their vectors mean |
| `IsspVectors.InitializeMeaning` | HSSPFirmware/hssp/issp.c:457-507 | initializing fails exactly if its first or its second vector is not acknowledged; else, if every execution takes effect, the target has been reset and has run the seven operations of the three vectors, in order and nothing else |
| `IsspVectors.SiliconIdMeaning` | HSSPFirmware/hssp/issp.c:512-567 | identification selects block 0, runs the rest of its vector, and succeeds if and only if that is acknowledged and leaves the expected id in the result registers |
| `IsspVectors.EraseMeaning` | HSSPFirmware/hssp/issp.c:572-589 | an erase fails exactly if it is not acknowledged; else the memory is what the whole erase vector makes of it |
| `IsspVectors.SecurityFlashMeaning` | HSSPFirmware/hssp/issp.c:801-838 | fails exactly if not acknowledged; else the first 32 bytes of the data are in the block buffer and the security vector has been run on that |
| `IsspVectors.SecurityVerifyMeaning` | HSSPFirmware/hssp/issp.c:843-910 | succeeds if and only if the whole verification vector is acknowledged and leaves the first 32 bytes of the data in the block buffer |
| `Programming.Programmer.ByteReceive` | HSSPFirmware/hssp/issp.c:380-390 | eight clocks with the line released; the result is the number formed by the levels seen, first bit on top |
| `Programming.Programmer.ByteSend` | HSSPFirmware/hssp/issp.c:395-419 | the first n bits of the byte reach the target, most significant first, one clock each; SCLK ends low; requires the line to be driven |
| `Programming.Programmer.VectorSend` | HSSPFirmware/hssp/issp.c:424-441 | exactly the first numBits bits of the vector reach the target, MSB first, then the line is released |
| `Programming.Programmer.TransitionHiLoDetect` | HSSPFirmware/hssp/issp.c:320-359 | fails exactly if SDATA is not seen high and then low, each within its limit; reads the pin only while released |
| `Programming.Programmer.TargetInitialize` | HSSPFirmware/hssp/issp.c:457-507 | its effect on the target and its failure are those of the three vectors and two handshakes; SCLK low, line released at every return |
| `Programming.Programmer.TargetSiliconIDVerify` | HSSPFirmware/hssp/issp.c:512-567 | fails exactly if not acknowledged or the two id registers differ from the expected id |
| `Programming.Programmer.TargetErase` | HSSPFirmware/hssp/issp.c:572-589 | one opaque vector and its handshake; SCLK low and line released also on failure |
| `Programming.Programmer.TargetLoad` | HSSPFirmware/hssp/issp.c:594-632 | feeds the write frames of all 64 bytes in order and returns their sum modulo 65536 |
| `Programming.Programmer.TargetBlockProgram` | HSSPFirmware/hssp/issp.c:637-666 | selects block k and runs the program vector; failure exactly when the handshake fails |
| `Programming.Programmer.TargetBlockVerify` | HSSPFirmware/hssp/issp.c:671-741 | fails exactly if the handshake fails or one of the 64 bytes read back differs from the buffer |
| `Programming.Programmer.TargetBankChecksumGet` | HSSPFirmware/hssp/issp.c:746-796 | adds the target's 16-bit sum to the accumulator modulo 65536, and leaves it alone on failure |
| `Programming.Programmer.TargetSecurityFlash` | HSSPFirmware/hssp/issp.c:801-838 | loads 32 bytes and runs the security vector; failure exactly when the handshake fails |
| `Programming.Programmer.TargetSecurityVerify` | HSSPFirmware/hssp/issp.c:843-910 | fails exactly if the handshake fails or one of the 32 bytes read back differs |
| `CommandLoop.Controller.Run` | HSSPFirmware/hssp/main.c:73-216 | for every input, split anywhere: the blocking loop's replies, target and final state are those of the one-byte-at-a-time machine, whose commands the rows of FlashCommands give a meaning |
| `CommandLoop.Controller.RunBlocks` | HSSPFirmware/hssp/main.c:110-155 | the program and verify loops: 128 blocks, each answered with + or the final 0, stopping at the first failure |
| `CommandLoop.Controller.RunSecurity` | HSSPFirmware/hssp/main.c:158-184 | one block of security data is read whole before it is used |
| `FlashProtocol.ReceiveOk` | HSSPFirmware/hssp/main.c:73-216 | every received byte, in any state, leaves the firmware in a state it can continue from |
| `FlashCommands.RestartMeaning` | HSSPFirmware/hssp/main.c:203-207 | the line x puts the target through a reset: its memory is the reset of what it was, its shift register and queue are empty; the answer is x 0 |
| `FlashCommands.InitMeaning` | HSSPFirmware/hssp/main.c:81-95 | the line a is answered with 1 exactly if initializing is not acknowledged, with 2 exactly if it is and the id is not acknowledged or not the expected one, and else with 0 |
| `FlashCommands.EraseCommand` | HSSPFirmware/hssp/main.c:97-107 | the line b is answered with 1 exactly if the erase is not acknowledged, and else has run the erase vector |
| `FlashCommands.ProgramBlock` | HSSPFirmware/hssp/main.c:110-133 | a block behind c is answered with 1 exactly if it is not acknowledged, with + before the last and 0 at the last block; acknowledged, it is burnt into its place and no other; the sum goes on by its bytes |
| `FlashCommands.VerifyBlock` | HSSPFirmware/hssp/main.c:136-155 | a block behind d is answered with 1 exactly if it is not acknowledged or not what is in the flash, with + before the last and 0 at the last block; flash and sum stay |
| `FlashCommands.SecureCommand` | HSSPFirmware/hssp/main.c:158-169 | e and its block are answered with 1 exactly if the security vector is not acknowledged; else it has been run on the data |
| `FlashCommands.VerifySecurityCommand` | HSSPFirmware/hssp/main.c:172-184 | f and its block are answered with 0 exactly if the verification is acknowledged and leaves the 32 bytes in the buffer, and else with 1 |
| `FlashCommands.CheckCommand` | HSSPFirmware/hssp/main.c:186-201 | the line g is answered with 1 exactly if the checksum is not acknowledged, with 2 exactly if the sums differ, and else with 0; the flash stays |
| `FlashCommands.DataCommand` | HSSPFirmware/hssp/main.c:110-184 | the commands that data follow start at block 0 and answer nothing yet; only programming starts a new sum |
| `FlashCommands.OtherLines` | HSSPFirmware/hssp/main.c:73-80 | every other line is ignored, but for z, after which nothing is answered |
| `HostProtocol.SerialThread.Received` | ISSProgrammer/serialthread.cpp:98-109 | for any arrival of bytes: which messages are emitted, in order, and what stays buffered, the message never being cleared |
| `HostProtocol.EmissionsAreReplies` | ISSProgrammer/serialthread.cpp:98-109 | each emitted message is its own reply if and only if fewer than 8 bytes are buffered at once |
| `HostProtocol.LaterRepliesRepeatTheFirst` | ISSProgrammer/serialthread.cpp:98-109 | with more buffered, every later reply is answered as if the first had come again |
| `HostProtocol.MainWindow.SerialData` | ISSProgrammer/mainwindow.cpp:132-286 | for every message: the bytes written and the block counter afterwards |
| `FlashRun.HostAdvances` | ISSProgrammer/mainwindow.cpp:132-286 | a successful reply to exchange e makes the host send exactly the request of exchange e + 1 |
| `FlashRun.ProgramExchange` | HSSPFirmware/hssp/main.c:110-133 | programming block k extends the flashed prefix by block k and the running checksum by its bytes |
| `FlashRun.VerifyExchange` | HSSPFirmware/hssp/main.c:136-155 | verifying block k changes nothing and succeeds only if block k is right |
| `FlashRun.CheckExchange` | HSSPFirmware/hssp/main.c:186-201 | the checksum exchange succeeds only if the target's sum equals the running one |
| `FlashRun.StepKeeps` | ISSProgrammer/mainwindow.cpp:132-297 | every step of the window, the serial thread, the link, the input queue or the firmware keeps the run at one of its stages and uses up part of a decreasing measure |
| `FlashRun.RunInvariant` | ISSProgrammer/mainwindow.cpp:132-297 | in every interleaving of any length the run is at one of its stages, and is at most 66000 steps long |
| `FlashRun.VerifiedMeansFlashed` | ISSProgrammer/mainwindow.cpp:211-230 | on every run, once the final verify reply d 0 is on its way to the host, each of the 128 flash blocks is the host's block; the flash may be faulty and the opaque vectors mean anything |
| `FlashRun.HandledMeansFlashed` | ISSProgrammer/mainwindow.cpp:211-230 | on every run, from when the host has taken up d 0 until the security data have been answered, the flash still is the image |
| `FlashRun.ProgrammedMeansFlashed` | ISSProgrammer/mainwindow.cpp:187-209 | with a flash that keeps what it is given, the image is already there when c 0 is reported |
| `FlashRun.CheckedMeansEqualSums` | HSSPFirmware/hssp/main.c:186-201 | g 0 is sent only if the target's sum is that of all 8192 bytes sent, modulo 65536 |
| `FlashRun.StopAndWait` | ISSProgrammer/mainwindow.cpp:132-297 | on every run at most one request or reply is under way, every emitted message has exactly four bytes, and during a block the host's counter is the firmware's plus one |
| `FlashRun.NoOverrun` | HSSPFirmware/chibios/hal/src/hal_queues.c:102-119 | on every run at most 66 bytes are waiting to be written, on the way and in the input queue of 128 together, and none is rejected |
| `FlashRun.EveryRunEnds` | ISSProgrammer/mainwindow.cpp:163-259 | every run ends within 66000 steps and 262 exchanges, and only in full success or after a failure reply |
| `FlashRun.FinishedOutOfReset` | ISSProgrammer/mainwindow.cpp:261-286 | on every run, once the host has handled all 262 success replies, the target has come out of a reset with nothing left in its shift register or queue, and went into it with a flash whose 16-bit sum is the image's |
| `ObligingTarget.InitializeSucceeds` | HSSPFirmware/hssp/issp.c:457-507 | on a target that acts and acknowledges in time, initializing succeeds from any state and ends at a frame boundary: the 110 zeros in its first vector and the block select in its second do no harm |
| `ObligingTarget.SiliconIdSucceeds` | HSSPFirmware/hssp/issp.c:512-567 | the id vector is none of those the target knows, and the id it leaves is the one expected |
| `ObligingTarget.SecuritySucceeds` | HSSPFirmware/hssp/issp.c:801-838 | the security vector is none of those the target knows: the flash stays, and the block buffer holds the security data |
| `FlashSuccess.Succeeds` | HSSPFirmware/hssp/main.c:73-216 | each of the 262 exchanges with an obliging target is answered with success |
| `FlashSuccess.NothingFails` | ISSProgrammer/mainwindow.cpp:132-297 | on every run with an obliging target, in every interleaving, nothing handled or in flight is a failure |
| `FlashSuccess.EveryRunSucceeds` | ISSProgrammer/mainwindow.cpp:132-297 | every run with an obliging target that can go no further has logged the success replies of all 262 exchanges, in order |
| `FlashSuccess.FlashingCanSucceed` | ISSProgrammer/mainwindow.cpp:211-230 | for every image there are an obliging target and a run up to the final verify reply, with the image in the flash |
| `FileToFlash.FileReachesFlash` | ISSProgrammer/mainwindow.cpp:304-480 | for every file that loads, of any length and on top of any earlier one: when a run that flashes the tables reaches the final verify reply, flash block k holds the data of line k, or the earlier file's block k if there is no such line |
| `FileToFlash.PrintedImageReachesFlash` | ISSProgrammer/mainwindow.cpp:304-480 | in particular a file written from an image, in digits of either case and with any addresses, brings that image into the flash |
| `HexImage.RecordReadBack` | ISSProgrammer/mainwindow.cpp:304-459 | every record printed with its checksum, in digits of either case, is read back exactly |
| `HexImage.ImageReadBack` | ISSProgrammer/mainwindow.cpp:304-480 | printing any image (128 blocks, address, security, address, checksum and end records, any addresses) and loading it restores blocks, security data and checksum, whatever was loaded before |
| `HexImage.AcceptedLineSumsToZero` | ISSProgrammer/mainwindow.cpp:441-459 | the bytes of every accepted line, its checksum included, sum to 0 modulo 256 |
| `HexImage.BlocksAreTheFirstRecords` | ISSProgrammer/mainwindow.cpp:356-371 | after any accepted lines the loaded blocks are exactly the data of the first of them, at most 128, in order |
| `HexImage.TableComesFrom` | ISSProgrammer/mainwindow.cpp:356-371 | after loading, row k of the table is the data of line k, and the earlier file's row k from the end of the file on |
| `HexImage.PrefixAccepted` | ISSProgrammer/mainwindow.cpp:461-480 | every prefix of an accepted file is accepted |
| `HexImage.CompleteExactly` | ISSProgrammer/mainwindow.cpp:356-434 | how far an accepted file goes: 128 blocks if and only if it has 128 lines, the security address if and only if it has 129, the checksum address if and only if an address record follows those |
| `HexImage.OldDataShow` | ISSProgrammer/mainwindow.cpp:371-433 | what the same lines yield on top of other data: the security block and the checksum of the earlier file show through exactly where the file has none of its own |
| `HexImage.WholeExactly` | ISSProgrammer/mainwindow.cpp:371-433 | the result does not depend on the security block and checksum of an earlier file if and only if a 64-byte record and a 2-byte data record follow the first 129 lines |
| `HexImage.TruncatedFileLoads` | ISSProgrammer/mainwindow.cpp:461-480 | a written file cut off behind any of its lines loads; it has its security block from 130 lines on and its checksum from 132 on |
| `HexImage.HexLoader.ReadBlock` | ISSProgrammer/mainwindow.cpp:356-371 | 64 bytes go to the next row; all other rows stay, also when a digit is missing half way |
| `HexImage.HexLoader.HexDataProcess` | ISSProgrammer/mainwindow.cpp:304-459 | a line is accepted if and only if it is well formed, sums to zero and is the kind of record expected next; then exactly that record is applied |
| `HexImage.HexLoader.Load` | ISSProgrammer/mainwindow.cpp:461-480 | a file is loaded if and only if all its lines are accepted in turn, with exactly their effect; rows it does not reach keep what they held |
| `BufferMemory.SizeRoundTrip` | HSSPFirmware/chibios/hal/src/hal_buffers.c:645-669 | a size written to a buffer's size field is read back |
| `BufferMemory.AllHeldFrame` | HSSPFirmware/chibios/hal/src/hal_buffers.c:645-669 | writing in the slot after the posted buffers changes none of them |
| `BufferMemory.PointersMeet` | HSSPFirmware/chibios/hal/include/hal_buffers.h:229-271 | the write pointer meets the read pointer exactly when the ring is empty or full |
| `OutputBuffers.OutputBuffersQueue.GetFullBufferI` | HSSPFirmware/chibios/hal/src/hal_buffers.c:505-521 | returns the oldest posted buffer's bytes and size, or NULL exactly if nothing is posted |
| `OutputBuffers.OutputBuffersQueue.ReleaseEmptyBufferI` | HSSPFirmware/chibios/hal/src/hal_buffers.c:527-545 | the oldest posted buffer is removed, the others and the one being filled stay |
| `OutputBuffers.OutputBuffersQueue.CopyIn` | HSSPFirmware/chibios/hal/src/hal_buffers.c:792-806 | the bytes are appended to the buffer being filled; no posted buffer changes |
| `OutputBuffers.OutputBuffersQueue.PostCurrent` | HSSPFirmware/chibios/hal/src/hal_buffers.c:645-669 | the buffer being filled becomes the newest posted one, byte for byte |
| `OutputBuffers.OutputBuffersQueue.TryFlushI` | HSSPFirmware/chibios/hal/src/hal_buffers.c:833-862 | posts the partial buffer if and only if nothing is posted and it is not empty |
| `OutputStream.StepKeepsInv` | HSSPFirmware/chibios/hal/src/hal_buffers.c:645-884 | every writer or interrupt step loses, repeats and reorders no byte and leaves a buffer in transmission alone |
| `OutputStream.StreamPreserved` | HSSPFirmware/chibios/hal/src/hal_buffers.c:645-884 | on every interleaving: bytes transmitted ++ bytes in posted buffers ++ bytes in the partial buffer == bytes stored since configuration; each non-empty transmission is one posted buffer, released once |
| `OutputStream.EndpointInvariant` | HSSPFirmware/chibios/hal/src/hal_serial_usb.c:403-445 | on every run the buffer in transmission is the oldest posted one, and an idle endpoint's last transaction was no non-empty multiple of the packet size (section 5.8.3 of the USB 2.0 specification) |
| `OutputStream.EmptyOnlyWhenNeeded` | HSSPFirmware/chibios/hal/src/hal_serial_usb.c:425-438 | and on every run an empty packet is sent only behind a transmission that was not empty and ended with a full packet |
| `OutputStream.FlushPosts` | HSSPFirmware/chibios/hal/src/hal_buffers.c:870-884 | a flush leaves the partial buffer empty and posts what was in it as one more buffer, whatever the endpoint and the bus do; on an active bus the endpoint is sending afterwards if there was anything in it |
| `OutputStream.StallStep` | HSSPFirmware/chibios/hal/src/hal_serial_usb.c:147-167 | one step leaves full buffers on an idle endpoint if and only if it posts while the bus is inactive, or finds that and does not restart it |
| `OutputStream.StallsExactly` | HSSPFirmware/chibios/hal/src/hal_serial_usb.c:147-167 | over whole runs, in both directions: full buffers wait on an idle endpoint exactly if one was posted during a suspension and nothing restarted the output since |
| `OutputStream.DeadlockIsPermanent` | HSSPFirmware/chibios/hal/src/hal_serial_usb.c:368-395 | with all buffers full on an idle endpoint, no sequence of events but a new configuration moves a byte again |
| `OutputStream.DeadlockExactly` | HSSPFirmware/chibios/hal/src/hal_serial_usb.c:368-395 | in both directions: short of a new configuration nothing can ever be transmitted again if and only if all buffers are full on an idle endpoint |
| `OutputStream.DeadlockIsReachable` | HSSPFirmware/chibios/hal/src/hal_serial_usb.c:280-306 | two buffers written during a suspension, in chunks of at most 64 bytes, bring that state about, awake again, with the default buffer sizes |
| `OutputStream.FlowsUnlessSuspended` | HSSPFirmware/chibios/hal/src/hal_serial_usb.c:147-167 | on a run in which the bus has not been suspended since the last configuration no full buffer waits on an idle endpoint |
| `OutputStream.ActiveExactly` | HSSPFirmware/chibios/hal/src/hal_serial_usb.c:280-322 | on every run the bus is active exactly if the last of its suspensions, wakeups and configurations was no suspension |
| `OutputStream.QuietExactly` | HSSPFirmware/chibios/hal/src/hal_serial_usb.c:368-395 | after a start-of-frame on an output that flows the endpoint is idle if and only if every byte stored has been transmitted and no empty packet is due |
| `OutputStream.Drains` | HSSPFirmware/chibios/hal/src/hal_serial_usb.c:368-445 | however start-of-frames and completions follow one another: the transmissions left are bounded, and when after a start-of-frame none is under way all bytes stored since configuration are on the wire |
| `OutputStream.DrainsSomehow` | HSSPFirmware/chibios/hal/src/hal_serial_usb.c:368-445 | and from every state in which output flows they can follow one another so that this comes about |
| `Arithmetic.MaskIsRemainder` | HSSPFirmware/chibios/hal/src/hal_serial_usb.c:427-436 | for powers of two the mask test on the transmitted size is the test for a multiple |
| `SerialUsbOutput.Output.ObNotify` | HSSPFirmware/chibios/hal/src/hal_serial_usb.c:147-167 | starts the oldest posted buffer exactly if the bus is active and the endpoint free |
| `SerialUsbOutput.Output.SofHook` | HSSPFirmware/chibios/hal/src/hal_serial_usb.c:368-395 | flushes and starts the partial buffer exactly when nothing else is posted or under way on an active bus |
| `SerialUsbOutput.Output.DataTransmitted` | HSSPFirmware/chibios/hal/src/hal_serial_usb.c:403-445 | what leaves the controller is the memory of the transaction as it is then; release, next buffer or empty packet follow the abstract step |
| `SerialUsbOutput.Output.Interrupts` | HSSPFirmware/chibios/hal/src/hal_serial_usb.c:280-445 | any number of interrupts in any order is a run of the abstract machine |
| `SerialUsbOutput.Output.GetEmptyBuffer` | HSSPFirmware/chibios/hal/src/hal_buffers.c:596-616 | returns success only with an empty current buffer, and always if one is free; stores nothing; it sleeps once, exactly if all buffers are full and the queue is not suspended, and returns what the sleep returned; without a sleep it returns reset exactly if the full queue is suspended; a reset message only comes with a suspension or a configuration |
| `SerialUsbOutput.Output.Reacquire` | HSSPFirmware/chibios/hal/src/hal_buffers.c:757-781 | within the write's time window: success brings an empty current buffer; giving up comes with what its sleep returned, with the deadline passed on the counter, or from a full and suspended queue; on time only once the whole window has passed; further waits end where the first would have |
| `SerialUsbOutput.Output.PutTimeout` | HSSPFirmware/chibios/hal/src/hal_buffers.c:690-717 | stores exactly the byte on success and nothing otherwise; succeeds if there is room; else one sleep gives the result, or the suspended queue a reset |
| `SerialUsbOutput.Output.WriteTimeout` | HSSPFirmware/chibios/hal/src/hal_buffers.c:740-819 | interrupts between all chunks: the bytes stored are exactly the first w of the argument, in order, one at least if there is room; it ends short only with what its last sleep on a full queue returned, with the deadline passed on the counter, or in a full and suspended queue; never timed out early; every wait ends at the original deadline; without a time limit, on an active bus with no suspension or configuration, all bytes are stored |
| `SerialUsbOutput.Output.FlushOutput` | HSSPFirmware/chibios/hal/src/hal_buffers.c:870-884 | posts the partial buffer exactly if it is not empty, and notifies |
| `InputBuffers.InputBuffersQueue.PostFullBufferI` | HSSPFirmware/chibios/hal/src/hal_buffers.c:148-167 | what is in memory at the write pointer becomes the newest posted buffer; the others are untouched |
| `InputBuffers.InputBuffersQueue.FillEmptyBuffer` | HSSPFirmware/chibios/hal/src/hal_buffers.c:129-138 | writing anywhere into the empty buffer changes no posted buffer and not the one being read |
| `InputBuffers.InputBuffersQueue.IsFullI` | HSSPFirmware/chibios/hal/include/hal_buffers.h:241-243 | pointer equality with a non-zero counter is exactly a full ring |
| `InputBuffers.InputBuffersQueue.CopyOut` | HSSPFirmware/chibios/hal/src/hal_buffers.c:410-424 | returns the next bytes of the oldest buffer |
| `InputBuffers.InputBuffersQueue.ReleaseEmptyBuffer` | HSSPFirmware/chibios/hal/src/hal_buffers.c:269-291 | the oldest buffer is returned, the others stay in order |
| `InputStream.StepKeepsInv` | HSSPFirmware/chibios/hal/src/hal_buffers.c:148-167 | every reader or interrupt step loses, repeats and reorders no byte, and the endpoint receives only with an empty buffer |
| `InputStream.StreamPreserved` | HSSPFirmware/chibios/hal/src/hal_buffers.c:222-436 | on every interleaving: bytes read ++ bytes posted and unread == bytes received since configuration |
| `InputStream.DeafExactly` | HSSPFirmware/chibios/hal/src/hal_serial_usb.c:53-80 | over whole runs, in both directions: a buffer is free on an idle endpoint exactly if, during a suspension, one was freed while idle or received with others free, and nothing restarted reception since |
| `InputStream.DeafnessIsPermanent` | HSSPFirmware/chibios/hal/src/hal_serial_usb.c:299-306 | with nothing left to read and the endpoint idle, nothing but a new configuration lets a byte in again |
| `InputStream.DeafnessExactly` | HSSPFirmware/chibios/hal/src/hal_serial_usb.c:299-306 | in both directions: short of a new configuration nothing can ever be received again if and only if the endpoint is idle with nothing left to read |
| `InputStream.DeafnessIsReachable` | HSSPFirmware/chibios/hal/src/hal_serial_usb.c:280-306 | a full ring drained during a suspension, in chunks of at most 64 bytes, brings that state about, awake again |
| `InputStream.ReceivesUnlessSuspended` | HSSPFirmware/chibios/hal/src/hal_serial_usb.c:53-80 | on a run in which the bus has not been suspended since the last configuration the endpoint receives if and only if a buffer is empty |
| `InputStream.ActiveExactly` | HSSPFirmware/chibios/hal/src/hal_serial_usb.c:280-322 | on every run the bus is active exactly if the last of its suspensions, wakeups and configurations was no suspension |
| `SerialUsbInput.Input.StartReceiving` | HSSPFirmware/chibios/hal/src/hal_serial_usb.c:53-80 | starts a reception exactly if the bus is active, the endpoint free and a buffer empty |
| `SerialUsbInput.Input.ControllerStores` | HSSPFirmware/chibios/hal/src/hal_serial_usb.c:53-80 | while receiving, the controller may store anything anywhere in its buffer without touching what has been posted |
| `SerialUsbInput.Input.DataReceived` | HSSPFirmware/chibios/hal/src/hal_serial_usb.c:455-475 | posts what the controller has put in memory and starts the next reception |
| `SerialUsbInput.Input.GetFullBuffer` | HSSPFirmware/chibios/hal/src/hal_buffers.c:222-243 | success brings the oldest buffer, at once if one is there; it sleeps exactly if none is there and the queue is not suspended, again only when overtaken by a reset, and returns what its last sleep returned; the interrupts of its sleeps are exactly those of the run, and its waits end where the first does if and only if no thread that is overtaken by a reset, and waits again, runs late |
| `SerialUsbInput.LateRead` | HSSPFirmware/chibios/hal/src/hal_buffers.c:222-236 | it happens: a buffer received and a new configuration before the thread runs, at tick 7 of a wait of 10, make it wait until tick 17 |
| `SerialUsbInput.Input.GetTimeout` | HSSPFirmware/chibios/hal/src/hal_buffers.c:309-341 | returns exactly the next byte of the stream, or takes nothing; succeeds at once if one is there, else with what the wait for a buffer returns; its waits end where the first does if and only if no overtaken thread that waits again runs late |
| `SerialUsbInput.Input.Reacquire` | HSSPFirmware/chibios/hal/src/hal_buffers.c:375-399 | within the read's time window: success brings a buffer to read; giving up comes with what its last turn of waiting returned or with the deadline passed on the counter, on time only once the whole window has passed; every turn of waiting is for as long as was left when it began |
| `SerialUsbInput.Input.ReadTimeout` | HSSPFirmware/chibios/hal/src/hal_buffers.c:358-436 | interrupts between all chunks: the bytes returned are exactly the next of the stream, one at least if one is there; it ends short only with what its last turn of waiting returned or with the deadline passed on the counter; never timed out early; without a time limit, on an active bus with no suspension or configuration, all n bytes are returned; all its waits end at the original deadline if and only if no thread overtaken by a reset, and waiting again, runs late; without a reset none is |
| `ByteQueues.RingPut` | HSSPFirmware/chibios/hal/src/hal_queues.c:102-119 | a byte stored at the write pointer joins the end of the sequence and disturbs nothing |
| `ByteQueues.RingGet` | HSSPFirmware/chibios/hal/src/hal_queues.c:377-395 | the byte at the read pointer is the first; the rest follow from the next place |
| `ByteQueues.InputQueue.IsFullI` | HSSPFirmware/chibios/hal/include/hal_queues.h:172-175 | pointer equality with a non-zero counter is exactly a full ring |
| `ByteQueues.InputQueue.PutI` | HSSPFirmware/chibios/hal/src/hal_queues.c:102-119 | a byte is refused exactly if the ring holds its size; otherwise it is appended |
| `ByteQueues.InputQueue.GetTimeout` | HSSPFirmware/chibios/hal/src/hal_queues.c:141-170 | takes exactly the next byte, or nothing on timeout or reset; it sleeps exactly if none is there, again only when overtaken by a reset, and returns what its last sleep returned; reset only if there was one; its waits, each for the full timeout, end where the first does if and only if no thread overtaken by a reset runs late, and it has heard exactly the resets there were |
| `ByteQueues.InputQueue.ReadTimeout` | HSSPFirmware/chibios/hal/src/hal_queues.c:196-264 | interrupts between any two bytes: within an epoch the bytes returned are exactly the next ones put in, one at least if one is there; it ends short only with what its last sleep, begun on an empty queue, returned, or with the deadline passed on the counter; never timed out early; every sleep is for as long as is left to the original deadline; without a time limit a read that meets no reset returns all n bytes |
| `ByteQueues.OutputQueue.GetI` | HSSPFirmware/chibios/hal/src/hal_queues.c:377-395 | takes the oldest byte, or reports an empty queue |
| `ByteQueues.OutputQueue.PutTimeout` | HSSPFirmware/chibios/hal/src/hal_queues.c:337-365 | appends exactly the byte, or nothing on timeout or reset; succeeds if there is room; else one sleep, begun on a full queue, gives the result; reset only if there was one |
| `ByteQueues.OutputQueue.WriteTimeout` | HSSPFirmware/chibios/hal/src/hal_queues.c:421-488 | interrupts between any two bytes: within an epoch the bytes put in are exactly the first w, one at least if there is room; it ends short only with what its last sleep, begun on a full queue, returned, or with the deadline passed on the counter; never timed out early; every sleep is for as long as is left to the original deadline; without a time limit a write that meets no reset puts in all bytes |
| `Deadlines.Remaining` | HSSPFirmware/chibios/hal/src/hal_queues.c:206-240 | for every start tick and any time passed: expiry is seen exactly if the elapsed ticks modulo 65536 exceed the timeout, and the remaining time is the rest |
| `Deadlines.RemainingIsExact` | HSSPFirmware/chibios/hal/src/hal_buffers.c:367-399 | within one turn of the 16-bit counter: exact remaining time, exact expiry, and the wait asked for ends at the original deadline |
| `Wakeups.NapsEnd` | HSSPFirmware/chibios/hal/src/hal_queues.c:206-240 | after any number of wakeups the sleeps of a read or write with a deadline, each as long as what remains, all end at that deadline |
| `Wakeups.OnlyResetsEnd` | HSSPFirmware/chibios/hal/src/hal_queues.c:213-240 | a transfer without a time limit ends short only if the first interrupt to resume its last sleep was a reset |
| `Wakeups.OvertakenExactly` | HSSPFirmware/chibios/hal/src/hal_buffers.c:148-167 | in both directions: a thread woken because something was put in finds nothing exactly if that came before any reset, and a reset after it was the last word before the thread ran |
| `Wakeups.LateExactly` | HSSPFirmware/chibios/hal/src/hal_buffers.c:222-236 | for every loop that waits again for the time computed at its start: all its waits end at its deadline if and only if no overtaken thread that waits again runs later than that start |
| `Wakeups.ReadLateExactly` | HSSPFirmware/chibios/hal/src/hal_buffers.c:367-399 | the same over all the waits of a read whose times are counted down to its deadline |
| `Wakeups.LateWithoutBound` | HSSPFirmware/chibios/hal/src/hal_queues.c:141-153 | for every number n there is such a loop, overtaken n times, whose last wait begins n whole timeouts after its start |
| `Deadlines.ExpiryMissed` | HSSPFirmware/hssp/chconf.h:44 | an expired deadline goes unnoticed exactly if the counter has gone round and is inside the window again |
| `ControlPipe.OnlySetAddress` | HSSPFirmware/chibios/hal/src/hal_usb.c:84-252 | the address callback is prepared by a standard SET_ADDRESS only, and no request changes the address at once |
| `ControlPipe.StepKeepsInv` | HSSPFirmware/chibios/hal/src/hal_usb.c:753-965 | every event keeps: no failed assertion, state and busy bits agreeing or waiting for a SETUP, a pending address asked for by the last SETUP |
| `ControlPipe.AgreementKept` | HSSPFirmware/chibios/hal/src/hal_usb.c:930-945 | agreement of state and busy bits is lost exactly by a status packet that is not empty |
| `ControlPipe.SetupRestoresAgreement` | HSSPFirmware/chibios/hal/src/hal_usb.c:753-839 | a SETUP restores the agreement whatever went before |
| `ControlPipe.AddressChanges` | HSSPFirmware/chibios/hal/src/hal_usb.c:64-70 | the address changes only at a bus reset, to 0, or when the status stage of a SET_ADDRESS request is over, to the address it gave (section 9.4.6 of USB 2.0) |
| `ControlPipe.NoStateMachineError` | HSSPFirmware/chibios/hal/src/hal_usb.c:753-965 | on every run, any host and application: the error branches are never reached, no transaction starts on a busy endpoint zero, and addresses are set at most once per request |
| `ControlPipe.AgreesExactly` | HSSPFirmware/chibios/hal/src/hal_usb.c:918-945 | over whole runs, in both directions: state and busy bits of endpoint zero are at odds exactly if a status packet was not empty and neither a SETUP nor a bus reset has come since |
| `ControlPipe.OnlyHaltRequests` | HSSPFirmware/chibios/hal/src/hal_usb.c:211-242 | an accepted request makes the driver stall or clear an endpoint exactly if it is a standard halt request for one other than zero: one command, of the direction and number asked for, and nothing else changes |
| `ControlPipe.StepIssues` | HSSPFirmware/chibios/hal/src/hal_usb.c:753-965 | a step gives the controller a command exactly if it is a request that asks for one or is refused; the error branches of the callbacks give none, as they are never reached |
| `ControlPipe.IssuedExactly` | HSSPFirmware/chibios/hal/src/hal_usb.c:762-780 | over whole runs: the commands to the controller are exactly those its requests ask for, in order, and endpoint zero is stalled in both directions once for each refused request and not otherwise |
| `ControlRead.ZeroPacketNeeded` | HSSPFirmware/chibios/hal/src/hal_usb.c:851-873 | for every length and packet size: the host stops exactly at the last packet if and only if an empty packet is added exactly when the data is short and ends on a full packet |
| `ControlRead.ReadRuns` | HSSPFirmware/chibios/hal/src/hal_usb.c:790-887 | over whole transfers, whatever the host and the bus do: an accepted request from the device to the host is answered by the truncated data and an empty transaction exactly when needed, one after the other and no others, then one OUT transaction is taken; if that is empty the transfer is over |
| `ControlRead.ControlReadEnds` | HSSPFirmware/chibios/hal/src/hal_usb.c:790-887 | for every answer, wLength and packet size, and whatever happens meanwhile: once nothing more is to be sent the host has seen the end exactly after min(length, wLength) bytes, which are the answer's (section 8.5.3.2 of USB 2.0) |
| `ControlRead.EmptyAnswer` | HSSPFirmware/chibios/hal/src/hal_usb.c:797-815 | an empty answer sends no data packet at all, so a host wanting data is not served |
| `ControlWrite.ControlWriteEnds` | HSSPFirmware/chibios/hal/src/hal_usb.c:816-965 | over whole transfers, whatever the host and the bus do: of an accepted request from the host to the device the data arrive first, in one OUT transaction, if there are any; then exactly one IN transaction is sent, an empty one; its completion ends the transfer, and only then a SET_ADDRESS takes effect; until then a transaction is always under way |
| `ControlWrite.ControlWriteCanEnd` | HSSPFirmware/chibios/hal/src/hal_usb.c:816-906 | and each such transfer can come to its end |
| `StandardRequests.RefusedExactly` | HSSPFirmware/chibios/hal/src/hal_usb.c:84-252 | a request is refused if and only if the application does not take it and it is none of the standard table, features, missing descriptors and disabled endpoints included |
| `StandardRequests.GetConfiguration` | HSSPFirmware/chibios/hal/src/hal_usb.c:139-142 | over whole runs, in both directions: the answer is the value of the last SET_CONFIGURATION since the last bus reset, 0 if there is none, if and only if that one was not ignored: it did not ask for 0 while a configuration was chosen and the device not active |
| `StandardRequests.ConfigurationExactly` | HSSPFirmware/chibios/hal/src/hal_usb.c:143-165 | and so is the configuration itself |
| `StandardRequests.ConfigurationSticks` | HSSPFirmware/chibios/hal/src/hal_usb.c:147-157 | it happens: a device configured, then given an address, keeps its configuration when 0 is asked for |
| `StandardRequests.GetStatus` | HSSPFirmware/chibios/hal/src/hal_usb.c:91-112 | over whole runs: the device reports remote wakeup if and only if the last request for it since the last bus reset was to enable it |
| `StandardRequests.HaltedExactly` | HSSPFirmware/chibios/hal/src/hal_usb.c:211-242 | over whole runs: the controller has been told to stall an endpoint other than zero if and only if the last halt request for its number and direction was to halt it |
| `StandardRequests.GetEndpointStatus` | HSSPFirmware/chibios/hal/src/hal_usb.c:175-210 | and if the controller does as it is told, GET_STATUS answers 1 of a halted endpoint and 0 of any other |
| `StandardRequests.ZeroAnswers` | HSSPFirmware/chibios/hal/src/hal_usb.c:167-174 | the status of an interface and the frame of an endpoint are always two zeroes |
| `StandardRequests.AddressExactly` | HSSPFirmware/chibios/hal/src/hal_usb.c:64-70 | over whole runs: the address is that of the last SET_ADDRESS whose status stage has come to its end since the last bus reset, 0 if there is none |
| `StandardRequests.StateExactly` | HSSPFirmware/chibios/hal/src/hal_usb.c:64-165 | over all runs on which the bus is suspended and woken in turn: the device is active since it got a configuration, selected since it lost it or got an address, ready since a bus reset, whichever came last; asleep it is to be woken where it stood |
| `StandardRequests.ActiveIsConfigured` | HSSPFirmware/chibios/hal/src/hal_usb.c:143-165 | there an active device always has a configuration |
| `StandardRequests.StaleWakeup` | HSSPFirmware/chibios/hal/src/hal_usb.c:734-741 | a wakeup that follows a bus reset makes the device active without one |
| `UsbDriver.Driver.StartTransmitI` | HSSPFirmware/chibios/hal/src/hal_usb.c:490-514 | on any endpoint: its busy bit is set and its transaction holds buffer, size and a count of 0; no other endpoint changes; a busy endpoint is an assertion failure |
| `UsbDriver.Driver.StartReceiveI` | HSSPFirmware/chibios/hal/src/hal_usb.c:451-475 | likewise for reception |
| `UsbDriver.Driver.SetConfiguration` | HSSPFirmware/chibios/hal/src/hal_usb.c:143-165 | the device's state and configuration after the request; all endpoints but zero are closed exactly if an active device is given another configuration; endpoint zero's bits survive |
| `UsbDriver.Driver.HandleRequest` | HSSPFirmware/chibios/hal/src/hal_usb.c:84-252 | accepts and answers exactly the requests of the standard table, stalling and clearing endpoints included, and closes endpoints exactly at a change of configuration of an active device; a refused one changes nothing; what the answers are over runs the rows of StandardRequests say |
| `UsbDriver.Driver.Fail` | HSSPFirmware/chibios/hal/src/hal_usb.c:771-778 | the error response stalls endpoint zero, IN before OUT, and changes nothing else but its state |
| `UsbDriver.Driver.BeginTransfer` | HSSPFirmware/chibios/hal/src/hal_usb.c:784-838 | the first stage of the transfer: what is to be transmitted, or how much received, on endpoint zero is the data prepared, limited to wLength, or an empty packet in a status stage; other endpoints' bits are untouched |
| `UsbDriver.Driver.Ep0Setup` | HSSPFirmware/chibios/hal/src/hal_usb.c:753-839 | the callback takes the driver exactly one SETUP step, the stalls of a refused request included; the transaction started has the buffer and size of its stage; the other endpoints are closed exactly at a change of configuration of an active device |
| `UsbDriver.Driver.Ep0In` | HSSPFirmware/chibios/hal/src/hal_usb.c:851-906 | the callback takes the driver exactly one IN step, the stalls of its error branch included; a transaction started is of an empty packet; other endpoints' bits are untouched |
| `UsbDriver.Driver.Ep0Out` | HSSPFirmware/chibios/hal/src/hal_usb.c:918-965 | the callback takes the driver exactly one OUT step, the stalls of its error branch included; a transaction started is of an empty packet; other endpoints' bits are untouched |
| `UsbDriver.Driver.Reset` | HSSPFirmware/chibios/hal/src/hal_usb.c:644-683 | a bus reset clears address, configuration and all busy bits |
| `ThreadQueues.ThreadQueue.PrioInsert` | HSSPFirmware/chibios/rt/include/chschd.h:597-607 | the ring stays well formed; the thread goes behind exactly those leading threads of its priority or higher; a sorted queue stays sorted; the search ends |
| `ThreadQueues.ThreadQueue.Insert` | HSSPFirmware/chibios/rt/include/chschd.h:609-615 | the ring stays well formed and the thread is last |
| `ThreadQueues.ThreadQueue.FifoRemove` | HSSPFirmware/chibios/rt/include/chschd.h:617-624 | returns the first thread, the rest stay in order in a well-formed ring |
| `ThreadQueues.ThreadQueue.LifoRemove` | HSSPFirmware/chibios/rt/include/chschd.h:626-633 | returns the last thread, the rest stay in order in a well-formed ring |
| `ThreadQueues.ThreadQueue.Dequeue` | HSSPFirmware/chibios/rt/include/chschd.h:635-641 | removes the thread from wherever it is, the rest stay in order in a well-formed ring |
| `ThreadQueues.InsertKeepsSorted` | HSSPFirmware/chibios/rt/include/chschd.h:597-607 | inserting at the found position keeps descending priorities |
| `ThreadQueues.AlwaysInOrder` | HSSPFirmware/chibios/rt/include/chschd.h:597-641 | after any mix of insertions and removals: higher priorities first, and first come, first served among equals |
| `Crc7.TableRight` | HSSPFirmware/chibios/hal/src/hal_mmc_spi.c:69-92 | all 256 table entries are the remainders of their bytes times x^7 |
| `Crc7.Absorbed` | HSSPFirmware/chibios/hal/src/hal_mmc_spi.c:148-155 | one table step from any value below 128 equals eight bit steps |
| `Crc7.Crc7` | HSSPFirmware/chibios/hal/src/hal_mmc_spi.c:148-155 | for every start value below 128 and every buffer the loop equals bit-serial division |
| `Crc7.CrcIsRemainder` | HSSPFirmware/chibios/hal/src/hal_mmc_spi.c:148-155 | the result is the one and only remainder of the message polynomial divided by x^7 + x^3 + 1 (section 4.5 of the SD Physical Layer Simplified Specification) |
| `Crc7.CrcIsLinear` | HSSPFirmware/chibios/hal/src/hal_mmc_spi.c:148-155 | the CRC of a bitwise sum of buffers is the bitwise sum of their CRCs |
| `Crc7.ByteChangeDetected` | HSSPFirmware/chibios/hal/src/hal_mmc_spi.c:148-155 | in a buffer of any length a change of one byte goes unnoticed if and only if it adds the polynomial itself |
| `Crc7.BitChangeDetected` | HSSPFirmware/chibios/hal/src/hal_mmc_spi.c:148-155 | any single-bit change changes the result |
| `Crc7.SendHeader` | HSSPFirmware/chibios/hal/src/hal_mmc_spi.c:196-211 | the six bytes carry command and argument, and their CRC is always 0x09 |
| `CardSlices.SliceIsField` | HSSPFirmware/chibios/hal/src/hal_mmcsd.c:61-82 | for every register and every field of up to 32 bits: the slice is floor(N / 2^start) mod 2^(end - start + 1) of the whole register N |
| `CardSlices.CapacityOfVersion1` | HSSPFirmware/chibios/hal/src/hal_mmcsd.c:99-104 | version 1.0: there is a result exactly if READ_BL_LEN is 9 or more, and it is (C_SIZE + 1) * 2^(C_SIZE_MULT + 2) * 2^READ_BL_LEN bytes, no shift overflowing |
| `CardSlices.CapacityOfVersion2` | HSSPFirmware/chibios/hal/src/hal_mmcsd.c:105-107 | version 2.0: (C_SIZE + 1) * 512 KB if and only if C_SIZE is not the largest code, which yields 0 |
| `CardSlices.CapacityOfReserved` | HSSPFirmware/chibios/hal/src/hal_mmcsd.c:108-112 | a reserved structure version yields 0 |

## Left out

- Widgets, port enumeration, status texts, file dialogs, real serial input and output, delays and GPIO registers.
- Pressing Flash again in the middle of a run.
- The leniency of the HEX digits parser towards signs and spaces: lines hold hexadecimal digits only, and characters beyond the end of a line count as none.
- The meaning of the initialize, erase and security vectors, and whether the target is really protected afterwards.
- The firmware's `checksum` variable before the first program command: it starts with an arbitrary value.
- The waits with no time limit or none at all (`TIME_INFINITE`, `TIME_IMMEDIATE`) are not among the waits said to end at a deadline.
- The kernel's scheduling itself, the locks, and all low-level drivers; a wait is a nondeterministic success, timeout or reset.
- Two threads sharing one buffers queue: a woken waiter would reset the current buffer over bytes already written.
- Event flags and callbacks of the serial driver that touch no queue, and `sduStop`.
- The answer to a request is the value at the time of the request; the code hands over a pointer to it.
- Masks of busy endpoints are sets of endpoint numbers, not 16-bit words.
- Early address setting and hardware status stages, which this port does not use.
- The configurations of the USB driver's other endpoints and the threads waiting on them; what the controller does with a stall command.
- The field-by-field unpack functions of card registers, the card sessions over SPI and SDC, the real-time clock conversions, and drivers that only wrap a low-level call.
- `list_insert` and `list_remove`, which are single-ended and simpler than the queues.
