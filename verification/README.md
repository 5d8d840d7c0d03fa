# Machine-checked models of the FOME firmware's stateful components

FOME is engine-control firmware. Most of it is tables and hardware glue; what is easy to get wrong
sits in a dozen small components with loops, ring buffers, crash points or interleaving threads. This
project models those components in Dafny 4.11 and proves what they are for. `dafny verify
dfyconfig.toml` checks everything.

Each component has the same three layers. Classes and methods follow the C and C++ code statement by
statement, on arrays, linked nodes and fields, with the same constants, branches and error results.
Pure functions say what each method computes. Lemmas and step systems prove what the component
promises about those functions, over all inputs, all histories or all interleavings. Inductions are
written out: every lemma switches Dafny's automatic induction off.

| file | component |
|---|---|
| `IsoTp`, `IsoTpLoss`, `FifoBuffer`, `SerialCan`, `SerialCanStream`, `SerialCanSystem`, `SerialCanProgress` | the ISO 15765-2 byte stream over CAN |
| `MergeSort`, `ListSort`, `DoublyLinkedList` | the intrusive list macros: in-place stable merge sorts and list edits |
| `ConfigStore`, `ConfigPowerLoss` | the configuration in two flash copies, with power losses anywhere |
| `BlockFlash` | the boot loader's write-back block buffer |
| `WrapAround` | a 62-bit clock from a 32-bit counter, shared by racing threads |
| `LogBuffers`, `LogPipeline` | the logging pipeline |
| `UartDma`, `Rs232`, `Wifi` | three machines that move bytes |
| `TinyMt` | the random generator of RFC 8682, section 2.1 |
| `LimpHistory`, `LimpConditions`, `LimpManager` | the limp-mode state machine |
| `CliTokens`, `CliRegistry` | the console command line |
| `Stepper` | the open-loop idle valve |
| `IntegerText` | integer printing |

## What the proofs show about the code

Most promises hold as documented. Where one does not, the model keeps the code as it is, gives a
concrete input, and proves the exact condition:

- A message of 4096 bytes or more is silently cut to its length modulo 4096 (`SegmentTransparentIff`).
- ISO-TP frame loss goes unnoticed exactly for messages of more than 118 bytes (`LossSafeIff`).
- Two configuration copies are meant to leave one good and current image at every moment. Power lost
  between the copies and then again during the first copy brings back an image that had already been
  replaced (`StaleImage`); `SafeIffLucky` is the exact condition on a history of losses.
- A block-buffer call that spans more than two 1024-byte blocks overwrites the second block
  (`PlainIff`).
- The clock is right for samples from two 2^30-tick blocks before the stored one up to one block
  after it, and for no others within half the 62-bit range (`ExactIff`).
- A log message of 255 or more formatted characters leaves its line buffer without a terminator
  (`FormatLine`).
- The firmware's one random generator leaves all three parameters at zero, so the feedback that RFC 8682
  builds on never takes effect there (`FirmwareSeed`, `NextIs`).
- The command line is refused for an open quote only if it opens within the first ten tokens
  (`RefusedIff`, `OpenQuoteUnnoticed`). Of the twenty action types three can be registered and are never
  called, and a fourth cannot even be registered (`NeverCalled`, `CallableIff`).
- A frame of the peer's own data counts as an answer to a sender that waits for flow control, so two-way
  traffic can stop a message (`OwnDataStops`) or stand in for the permission; `SentIff` is the exact
  condition. The data in such frames is kept while it fits the queue (`SendConserves`).
- Power lost between a stepper pulse and the saving of the position leaves the count one step off
  (`OneStepOff`). `StartAfterLostPulse` says when the next start is right. Over a whole run the count is
  right if and only if the slips since the last parking, lost pulses and steps against a stop with their
  signs, add up to nothing (`RightRunIff`); a second lost pulse can thus undo the first
  (`TwoLostPulses`).

## Model

| member | source | states |
|---|---|---|
| IsoTp.SegmentDelivers | firmware/console/binary/serial_can.cpp:40-163 | whatever the receiver has seen before, the frames of one message deliver exactly its bytes, except that a multi-frame message keeps only the first (length mod 4096) |
| IsoTp.SegmentTransparentIff | firmware/console/binary/serial_can.cpp:40-163 | segmentation and reassembly give the message back if and only if it has fewer than 4096 bytes |
| IsoTp.ConsecutivesDeliver | firmware/console/binary/serial_can.cpp:112-121 | a receiver awaiting n bytes takes exactly the next n bytes from a row of ConsecutiveFrames, across any number of wraps of the four-bit index |
| IsoTp.DeliveredConcat | firmware/console/binary/serial_can.cpp:92-176 | reception is compositional: what a frame sequence delivers is what its first part delivers, then what the rest delivers from the state reached |
| IsoTp.SegmentBytes | firmware/console/binary/serial_can.cpp:40-89 | every byte of every frame of a message of more than seven bytes: type nibble, twelve-bit length or four-bit index, payload, zero filling |
| IsoTp.FlowControlBytes | firmware/console/binary/serial_can.cpp:164-173 | the answer to a FirstFrame is 0x30 and seven zeros: continue, no block size, no separation time |
| IsoTp.StrayIgnored | firmware/console/binary/serial_can.cpp:92-130 | frames that are neither a single frame, nor a FirstFrame, nor the awaited ConsecutiveFrame change nothing, however many come |
| IsoTpLoss.ShortIsLossSafe | firmware/console/binary/serial_can.cpp:99-163 | up to 118 bytes: any loss, duplication or reordering of the ConsecutiveFrames delivers a prefix of the message |
| IsoTpLoss.LongIsNotLossSafe | firmware/console/binary/serial_can.cpp:112-121 | for every longer length a message and a loss pattern that deliver something else |
| IsoTpLoss.LossSafeIff | firmware/console/binary/serial_can.cpp:99-163 | a multi-frame length is safe under every loss pattern if and only if it is at most 118 |
| FifoBuffers.FifoBuffer.Put | firmware/util/containers/fifo_buffer.h:64-72 | the circular array is a queue: an item is appended exactly if there is room, and otherwise nothing changes |
| FifoBuffers.FifoBuffer.PutAll | firmware/util/containers/fifo_buffer.h:74-81 | as many items as fit are appended, in order |
| FifoBuffers.FifoBuffer.Get | firmware/util/containers/fifo_buffer.h:83-91 | the oldest item is taken and the order of the others kept |
| SerialCan.CanStreamerState.SendFrame | firmware/console/binary/serial_can.cpp:40-89 | one frame with the encoding of ISO 15765-2:2016, clause 9.6 goes on the bus; the number of payload bytes taken is returned |
| SerialCan.CanStreamerState.ReceiveFrame | firmware/console/binary/serial_can.cpp:92-176 | a frame is accepted, ignored or acknowledged as the format demands; what the reader has no room for is queued and nothing is lost between the two |
| SerialCan.CanStreamerState.SendDataTimeout | firmware/console/binary/serial_can.cpp:178-266 | the whole effect of a send on both peers' queues, including frames that arrive while it waits for flow control |
| SerialCan.CanStreamerState.GetDataFromFifo | firmware/console/binary/serial_can.cpp:268-279 | leftover bytes come out first, in order, into the start of the buffer |
| SerialCan.CanStreamerState.StreamAddToTxTimeout | firmware/console/binary/serial_can.cpp:281-319 | bytes are collected and sent in full blocks; the state left after a refused block is stated too |
| SerialCan.CanStreamerState.StreamFlushTx | firmware/console/binary/serial_can.cpp:321-329 | everything pending is handed to one send and nothing stays behind: without the peer's permission, of which `SentIff` is the condition, those bytes are dropped |
| SerialCan.CanStreamerState.StreamReceiveTimeout | firmware/console/binary/serial_can.cpp:331-362 | the bytes returned and everything the read leaves behind, as one function of the frames waiting |
| SerialCanStream.ReadConserves | firmware/console/binary/serial_can.cpp:331-362 | for reads of any size and any frames, bytes returned plus what is left to read is the stream there was; with productive frames a read returns as much as asked, or all |
| SerialCanStream.PullConserves | firmware/console/binary/serial_can.cpp:339-351 | the same for the loop over the frames, by induction over the frames waiting |
| SerialCanStream.SegmentProductive | firmware/console/binary/serial_can.cpp:178-266 | every frame of a segmented message of less than 4096 bytes yields at least one byte |
| SerialCanStream.PullTakes | firmware/console/binary/serial_can.cpp:339-351 | a read takes exactly the frames it needs: it ends when it has enough, when none is left, or with the first frame that brings nothing, and never earlier |
| SerialCanStream.AwaitTakes | firmware/console/binary/serial_can.cpp:210-246 | a wait for flow control takes the frames up to the first one, among four, that does not say "wait"; their data is queued as far as it fits, each FirstFrame among them is answered, and all else stays as it was |
| SerialCanStream.SendTakes | firmware/console/binary/serial_can.cpp:178-266 | the whole state a send leaves behind: the frames taken while it waited, and which frames went out in which order |
| SerialCanStream.SendConserves | firmware/console/binary/serial_can.cpp:160-163 | a send leaves the stream its own reader has still to get unchanged if and only if the data that arrives while it waits fits the 76-byte queue |
| SerialCanStream.AddConserves | firmware/console/binary/serial_can.cpp:281-319 | so does a whole add, refused or not, while that stream fits the queue |
| SerialCanSystem.StepInv | firmware/console/binary/serial_can.cpp:178-361 | each single step of either peer keeps every byte accounted for between sender, bus and reader |
| SerialCanSystem.StreamTransparent | firmware/console/binary/serial_can.cpp:178-361 | in every reachable state of every interleaving of adds and flushes of one peer and reads of the other, the bytes returned are a prefix of the bytes added, and all of them once nothing is on its way |
| SerialCanSystem.NoDeadlock | firmware/console/binary/serial_can.cpp:210-246 | a sender that waits for flow control can go on, or its FirstFrame is still queued at a reader whose next read makes progress |
| SerialCanSystem.SendWithFlowControl | firmware/console/binary/serial_can.cpp:178-266 | with the peer's answer at hand exactly the segmentation of the message goes out, and all of it is reported as sent |
| SerialCanSystem.SendWithoutFlowControl | firmware/console/binary/serial_can.cpp:210-246 | without an answer a long message is abandoned after its FirstFrame and reported as not sent |
| SerialCanSystem.SentIff | firmware/console/binary/serial_can.cpp:210-246 | a message longer than a frame is sent if and only if the first queued frame that does not say "wait", among the first four, has the low nibble of "continue", whatever kind of frame it is; otherwise it is reported as not sent |
| SerialCanSystem.OwnDataStops | firmware/console/binary/serial_can.cpp:210-246 | a single frame of two bytes, queued while a message waits for permission, has the message given up |
| SerialCanSystem.AddWithFlowControl | firmware/console/binary/serial_can.cpp:281-319 | an add whose answers are queued sends exactly the blocks the bytes divide into, as their segmentations, and leaves the rest pending |
| SerialCanSystem.AddIsBlocks | firmware/console/binary/serial_can.cpp:281-319 | an add sends the full blocks in order; if all go out the rest stays pending, and if one is refused that block stays pending and what was to come behind it is dropped |
| SerialCanProgress.ReadIsRun | firmware/console/binary/serial_can.cpp:331-362 | a whole read, as the method computes it, is a run of the single-frame steps |
| SerialCanProgress.MessageRun | firmware/console/binary/serial_can.cpp:178-266 | a message at any stage, waiting or not, can be completed by single-frame steps of a sender and of a reader that keeps reading, and the reader's eight-frame queue is never overfilled |
| SerialCanProgress.AddCompletes | firmware/console/binary/serial_can.cpp:281-319 | from every reachable idle state a whole add is a run, and it leaves the pending bytes the method leaves |
| SerialCanProgress.EveryByteCanArrive | firmware/console/binary/serial_can.cpp:178-362 | every run can be continued, within the reader's eight-frame queue, to a state in which the reader has exactly the bytes added |
| MergeSort.MergeSorted | firmware/ext_algo/utlist.h:133-153 | merging two sorted runs gives a sorted run, for every total preorder |
| MergeSort.MergeStable | firmware/ext_algo/utlist.h:133-153 | merging keeps the members of every equivalence class in order, those of the first run first |
| MergeSort.PassRuns | firmware/ext_algo/utlist.h:119-158 | one pass turns sorted runs of length k into sorted runs of length 2k |
| MergeSort.SortCorrect | firmware/ext_algo/utlist.h:108-165 | for every list and every total preorder the result is sorted, is a permutation of the same nodes, and is stable |
| ListSort.MergeRuns | firmware/ext_algo/utlist.h:133-153 | the pointer loop links exactly the merge of the two runs behind the output and leaves all later nodes alone, for both macros |
| ListSort.SortPass | firmware/ext_algo/utlist.h:171-228 | one pass over the linked nodes leaves a well-formed list of the same nodes, for the double links with every `prev` and the head's back link right |
| ListSort.SortInPlace | firmware/ext_algo/utlist.h:108-228 | LL_SORT2 and DL_SORT2 end for every list and comparison, and leave a well-formed list that is the sort of the old one |
| DoublyLinkedLists.DoublyLinkedList.Append | firmware/ext_algo/utlist.h:522-534 | the node becomes the last one; nodes stay distinct, links mutually inverse, head->prev the tail |
| DoublyLinkedLists.DoublyLinkedList.Prepend | firmware/ext_algo/utlist.h:507-517 | the node becomes the first one, with the same invariant |
| DoublyLinkedLists.DoublyLinkedList.Concat | firmware/ext_algo/utlist.h:539-552 | the nodes of the second list follow those of the first, with the same invariant |
| DoublyLinkedLists.DoublyLinkedList.Delete | firmware/ext_algo/utlist.h:557-573 | exactly that node leaves the sequence, wherever it was |
| DoublyLinkedLists.DoublyLinkedList.ReplaceElem | firmware/ext_algo/utlist.h:603-627 | the new node takes the old one's place |
| DoublyLinkedLists.DoublyLinkedList.PrependElem | firmware/ext_algo/utlist.h:629-642 | the new node comes right before the given one |
| DoublyLinkedLists.DoublyLinkedList.Sort | firmware/ext_algo/utlist.h:171-228 | sorting fits the same invariant, so any run of edits and sorts keeps it |
| ConfigStore.ConfigurationStore.EraseAndFlashCopy | firmware/controllers/flash_main.cpp:133-154 | a missing copy is skipped; otherwise one erase, then one write of the whole image |
| ConfigStore.ConfigurationStore.WriteToFlashNow | firmware/controllers/flash_main.cpp:158-209 | a burn is exactly erase and write of the first copy, then of the second, of one sealed image; a dry run touches no flash; the request flag is cleared |
| ConfigStore.ConfigurationStore.ReadOneConfigurationCopy | firmware/controllers/flash_main.cpp:226-250 | which of the four states a stored image is in |
| ConfigStore.ConfigurationStore.ReadFromFlash | firmware/controllers/flash_main.cpp:258-323 | which copy, or which defaults, a boot ends up with, for every flash content |
| ConfigStore.BootOkIff | firmware/controllers/flash_main.cpp:226-323 | for every flash content: a boot loads a configuration from flash if and only if some copy has a fitting CRC, version 20023 and the right size, and then the first such copy |
| ConfigStore.BootDefaultsIff | firmware/controllers/flash_main.cpp:226-323 | otherwise the copy looked at last decides between another layout, whose engine type picks the defaults, an erased copy and a damaged one |
| ConfigPowerLoss.BootLoads | firmware/controllers/flash_main.cpp:135-323 | after any history of burns cut short anywhere, a boot of the real flash contents loads what the history alone predicts |
| ConfigPowerLoss.LuckyIsSafe | firmware/controllers/flash_main.cpp:135-209 | without a first-phase loss behind an unrepaired second-phase loss, every boot in the history loads the old or the in-progress image and never defaults |
| ConfigPowerLoss.SafeIffLucky | firmware/controllers/flash_main.cpp:135-209 | and with one, some boot does not: the condition is exact |
| ConfigPowerLoss.BootsSafeIffLucky | firmware/controllers/flash_main.cpp:135-323 | the same, of what the boot-time reader makes of the flash contents after every attempt |
| ConfigPowerLoss.SafeForAllImagesIff | firmware/controllers/flash_main.cpp:135-323 | a pattern of losses is harmless for all images, repeated ones included, if and only if it is not the unlucky one |
| ConfigPowerLoss.DefaultsIff | firmware/controllers/flash_main.cpp:258-323 | defaults are loaded if and only if both copies were lost last |
| ConfigPowerLoss.StaleImage | firmware/controllers/flash_main.cpp:186-193 | a history of two losses after which a boot goes back to an image already replaced |
| BlockFlash.FlashProgrammer.FlashWriteBlock | firmware/bootloader/openblt_chibios/openblt_flash_h7.cpp:23-41 | the pending block is what flash then holds; the view of the memory is unchanged and the boot loader untouched |
| BlockFlash.FlashProgrammer.FlashSwitchBlock | firmware/bootloader/openblt_chibios/openblt_flash_h7.cpp:57-65 | moving to another block loses nothing of the view |
| BlockFlash.FlashProgrammer.FlashAddToBlock | firmware/bootloader/openblt_chibios/openblt_flash_h7.cpp:67-106 | the effect of a call of any length on the view of the memory, including lengths for which it is not a plain write |
| BlockFlash.FlashProgrammer.FlashWrite | firmware/bootloader/openblt_chibios/openblt_flash_h7.cpp:110-117 | writes below the user program are refused without effect; no byte of the boot loader ever changes |
| BlockFlash.FlashProgrammer.FlashWriteChecksum | firmware/bootloader/openblt_chibios/openblt_flash_h7.cpp:119-125 | afterwards flash itself equals the view |
| BlockFlash.AddedIsSplice | firmware/bootloader/openblt_chibios/openblt_flash_h7.cpp:67-106 | a call that stays within two blocks is a plain byte-by-byte write |
| BlockFlash.PlainIff | firmware/bootloader/openblt_chibios/openblt_flash_h7.cpp:83-103 | and only such a call is: at least one block more, and some data are written wrongly |
| BlockFlash.ByteGoes | firmware/bootloader/openblt_chibios/openblt_flash_h7.cpp:83-103 | what a call of any length leaves: the first block as it should be, and the last 1024 bytes in the second one, wherever they belong |
| BlockFlash.Download | firmware/bootloader/openblt_chibios/openblt_flash_h7.cpp:67-125 | after any chunks in any order, overlapping at will, the device holds what a simple memory would |
| WrapAround.WrapAround62.Update | firmware/util/efitime.h:56-78 | the stored upper part and the returned time, with 32-bit wrap-around and the arithmetic shift spelled out |
| WrapAround.UpperExact | firmware/util/efitime.h:56-78 | for any two times: the new upper part is that of the nearest block with the right low bits |
| WrapAround.InReachExact | firmware/util/efitime.h:56-78 | every time in reach of the stored one is returned exactly mod 2^62, also when it goes backwards |
| WrapAround.ExactIff | firmware/util/efitime.h:56-78 | and, within half the clock's range, no other time is |
| WrapAround.EveryUpdateExact | firmware/util/efitime.h:56-78 | in every interleaving of threads that read, compute and store, all within reach, each update returns its own sample's true time |
| LogBuffers.TruncateTwice | firmware/util/loggingcentral.cpp:58-70 | truncating line by line is the same as truncating the concatenation once |
| LogBuffers.LogBuffer.Length | firmware/util/loggingcentral.cpp:42-45 | length() is what strlen computes on the buffer |
| LogBuffers.LogBuffer.WriteInternal | firmware/util/loggingcentral.cpp:58-70 | the buffer holds the first N-1 bytes of the lines so far, null terminated |
| LogBuffers.OutputBuffers.SwapOutputBuffers | firmware/util/loggingcentral.cpp:93-116 | the reader gets the collected text, the flusher an empty buffer that is another one, and the size check never fires |
| LogBuffers.FormatLine | firmware/util/loggingcentral.cpp:182-224 | the line buffer is a terminated, sanitised string if and only if the message formats to fewer than 255 characters |
| LogPipeline.StepPartitioned | firmware/util/loggingcentral.cpp:118-224 | every step of a printing thread, the flusher or the reader keeps the 24 buffers each in exactly one place |
| LogPipeline.PostsSucceed | firmware/util/loggingcentral.cpp:118-224 | no post to either mailbox can fail |
| LogPipeline.HeldIsPrivate | firmware/util/loggingcentral.cpp:182-224 | a buffer a thread holds is with nobody else |
| LogPipeline.EveryRun | firmware/util/loggingcentral.cpp:93-244 | in every run the lines written out are, sanitised and in posting order, the first of the texts that were printed, none lost, doubled or overwritten; and each output buffer holds exactly the first bytes of its stretch of lines and scheduled text, the stretches being adjacent |
| UartDma.UartDmaTsChannel.CopyDataFromDMA | firmware/console/connector_uart_dma.cpp:13-31 | while the hardware keeps writing, each round copies the byte its slot holds then; if no round comes later than the hardware's next visit to its slot, exactly the next bytes of the stream are moved, once and in order. A full queue loses nothing and the next call resumes there |
| UartDma.UartDmaTsChannel.ReadTimeout | firmware/console/connector_uart_dma.cpp:76-79 | the reader gets the queued bytes in order, so everything delivered is a prefix of what the hardware received |
| UartDma.RingDistance | firmware/console/connector_uart_dma.cpp:13-31 | the distance computed from the two ring positions is the true one if and only if the hardware is less than one ring length ahead |
| UartDma.LatestIff | firmware/console/connector_uart_dma.cpp:13-31 | a slot still holds its byte if and only if the hardware is not a whole ring past it |
| UartDma.CopiedInTime | firmware/console/connector_uart_dma.cpp:21-30 | rounds that are in time copy exactly the stream from the resume position on |
| UartDma.InTimeIff | firmware/console/connector_uart_dma.cpp:21-30 | and the bound is exact: all rounds are in time if and only if each one finds the byte of its own stream position in the ring |
| TinyMt.TinyMt32.NextState | firmware/util/tinymt32.h:70-88 | the in-place update is the transition function |
| TinyMt.NextIs | firmware/util/tinymt32.h:70-88 | the next state in terms of the old words with literal shifts; mat1 and mat2 are added if and only if the new last word is odd |
| TinyMt.NextBits | firmware/util/tinymt32.h:70-88 | each bit of the next state as a sum modulo two of bits of the old state and of the parameters |
| TinyMt.PreviousOfNext | firmware/util/tinymt32.h:70-88 | for all parameters, a predecessor function undoes the transition on the 127-bit state |
| TinyMt.NextOfPrevious | firmware/util/tinymt32.h:70-88 | and every state is reached: the transition is a permutation |
| TinyMt.NextInjective | firmware/util/tinymt32.h:70-88 | two 127-bit states have the same successor if and only if they are the same |
| TinyMt.StepsInjective | firmware/util/tinymt32.h:70-88 | the same over any number of steps, and a non-zero state never becomes zero |
| TinyMt.TinyMt32.Init | firmware/util/tinymt32.c:62-76 | seeding in place gives the warmed-up certified state, which is never zero |
| TinyMt.TinyMt32.InitByArray | firmware/util/tinymt32.c:85-145 | the same for keys of every length, round by round |
| TinyMt.SeedsDiffer | firmware/util/tinymt32.c:62-71 | different seeds are mixed into different 127-bit states, for all parameters |
| TinyMt.InitsDiffer | firmware/util/tinymt32.c:62-76 | two seeds start the generator in the same state if and only if certification replaced one mixed state, which was zero, by the other |
| TinyMt.KeysDiffer | firmware/util/tinymt32.c:85-137 | changing any single word of a key changes the mixed words |
| TinyMt.FirmwareSeed | firmware/controllers/algo/launch_control.cpp:141-156 | the state the firmware's one generator starts in, whose parameters are zero |
| TinyMt.SeedOne | firmware/util/tinymt32.c:62-76 | a second fixed value, with non-zero parameters |
| TinyMt.KeyOneMixed | firmware/util/tinymt32.c:85-137 | and one for a key, round by round |
| Rs232.TransmitPacket | firmware/bootloader/openblt_chibios/openblt_usb.cpp:39-52 | a packet goes out behind its length byte |
| Rs232.Receiver.ReceivePacket | firmware/bootloader/openblt_chibios/openblt_usb.cpp:61-123 | one poll; whatever bytes came, and however many polls found none, the packets returned so far are those of the recursive parser |
| Rs232.ParseFrames | firmware/bootloader/openblt_chibios/openblt_usb.cpp:39-123 | framed packets parse to themselves, and the parser is back in step behind them |
| Rs232.RoundTrip | firmware/bootloader/openblt_chibios/openblt_usb.cpp:39-123 | a receiver that read the framing of any packets returned exactly these, in order, with nothing half read |
| Rs232.NoiseSkipped | firmware/bootloader/openblt_chibios/openblt_usb.cpp:61-123 | a byte that cannot be a length is skipped where a packet should begin, any number of times |
| Rs232.OnlyWhatWasSent | firmware/bootloader/openblt_chibios/openblt_usb.cpp:39-123 | before the end of the bytes it has returned a prefix of them |
| Wifi.WifiChannel.Flush | firmware/console/wifi_console.cpp:32-41 | what was collected goes out as one payload; nothing goes out for an empty buffer |
| Wifi.WifiChannel.Write | firmware/console/wifi_console.cpp:23-67 | for writes of any length, payloads sent plus buffer is always everything written, and each payload a write causes has 1400 bytes |
| Wifi.ServerSocket.Send | firmware/net/wifi_socket.cpp:94-110 | one call, one payload, the one passed in |
| WifiHandshake.EverySchedule | firmware/net/wifi_socket.cpp:94-153 | in every interleaving of writer and driver the payloads are a prefix of what was written, all of it after a flush, one per call of send |
| WifiHandshake.WaitingEnds | firmware/net/wifi_socket.cpp:94-153 | the shared buffer is unchanged from request to completion; a step is always possible for a waiting writer, and each one but its wake-up brings it one step closer |
| WifiHandshake.WokenWithinFour | firmware/net/wifi_socket.cpp:94-153 | so the writer has gone on after four steps at the latest, in every schedule |
| LimpHistory.FirstActiveWins | firmware/controllers/limp_manager.h:48-75 | clearing keeps the first reason: allowed exactly if no cut is active, otherwise the first active one is reported |
| LimpHistory.LatchStep | firmware/controllers/limp_manager.h:87-106 | the hysteresis is set if and only if it was set at some moment and never cleared since, over the whole history |
| LimpHistory.ElapsedIff | firmware/util/timer.cpp:18-43 | a timer has elapsed if and only if everything that could have reset it is longer ago than the timeout |
| LimpConditions.SustainedIff | firmware/controllers/limp_manager.cpp:234-261 | the sustained-duty condition holds if and only if no update within the timeout saw a duty inside the limit |
| LimpConditions.OilLowIff | firmware/controllers/limp_manager.cpp:186-220 | the oil pressure protection trips if and only if no update within the timeout found the pressure fine |
| LimpConditions.OilNeverCameIff | firmware/controllers/limp_manager.cpp:157-184 | the start check cuts if and only if it is on, more than five seconds have passed, and every time pressure was seen within five seconds of a start the engine stalled afterwards |
| LimpConditions.FuelCutsAre | firmware/controllers/limp_manager.cpp:35-277 | the fourteen fuel conditions in evaluation order, each in terms of the inputs of all updates |
| LimpConditions.SparkCutsAre | firmware/controllers/limp_manager.cpp:35-155 | the six spark conditions likewise |
| LimpConditions.CutTimerIs | firmware/controllers/limp_manager.cpp:104-107 | the timer of the last cut stands at the latest update that cut anything |
| LimpConditions.InjectionAllowedIff | firmware/controllers/limp_manager.cpp:35-277 | injection is allowed if and only if no fatal error was ever reported and, at the latest update, none of the fourteen conditions, each restated with its thresholds over the inputs of all updates, held |
| LimpConditions.InjectionReason | firmware/controllers/limp_manager.cpp:311-319 | the reported reason is the latched fault, else the first active condition in evaluation order |
| LimpConditions.IgnitionAllowedIff | firmware/controllers/limp_manager.cpp:35-155 | the same for spark and its six conditions |
| LimpConditions.IgnitionReason | firmware/controllers/limp_manager.cpp:321-329 | the same for the reported spark reason: the latched fault, else the first active condition in evaluation order |
| LimpHistory.FatalIsForever | firmware/controllers/limp_manager.cpp:288-301 | after a fatal error nothing that follows allows fuel or spark again |
| LimpHistory.FaultSteps | firmware/controllers/limp_manager.cpp:283-301 | the rev limit is that of the worst fault so far, whatever their order |
| LimpManagers.LimpManager.UpdateState | firmware/controllers/limp_manager.cpp:35-112 | one update with every cut in order: all latches, timers, limits and answers are again right for the longer history |
| LimpManagers.LimpManager.UpdateCutsHardRevLimit | firmware/controllers/limp_manager.cpp:121-141 | the rev limits with their hysteresis, for fuel and spark |
| LimpManagers.LimpManager.UpdateCutsOilPressure | firmware/controllers/limp_manager.cpp:157-221 | both oil pressure checks and what each remembers |
| LimpManagers.LimpManager.UpdateCutsBoostCut | firmware/controllers/limp_manager.cpp:223-232 | the boost cut, whose hysteresis rests while it is disabled |
| LimpManagers.LimpManager.UpdateCutsInjectorDuty | firmware/controllers/limp_manager.cpp:234-261 | instant and sustained duty limit, and the reset below 20 percent |
| LimpManagers.LimpManager.FatalErrorNow | firmware/controllers/limp_manager.cpp:288-295 | a fatal error becomes part of the history the answers follow |
| LimpManagers.LimpManager.ReportEtbProblemNow | firmware/controllers/limp_manager.cpp:283-286 | so does a throttle fault |
| LimpManagers.LimpManager.AllowInjection | firmware/controllers/limp_manager.cpp:311-319 | the answer is the one the whole history calls for |
| LimpManagers.LimpManager.AllowIgnition | firmware/controllers/limp_manager.cpp:321-329 | the same for spark |
| CliTokens.ScanShape | firmware/util/cli_registry.cpp:246-283 | tokens do not overlap and have white space between them; scanning stops early only at an open quote or with enough tokens |
| CliTokens.LineRead | firmware/util/cli_registry.cpp:246-283 | tokens with any quoting, joined by any white space, come back unchanged, as many as asked for |
| CliTokens.RefusedIff | firmware/util/cli_registry.cpp:259-268 | a line is refused if and only if its number of quotes is odd and fewer than the allowed tokens come before the open one |
| CliTokens.OpenQuoteUnnoticed | firmware/util/cli_registry.cpp:254-268 | a line with an open quote that is accepted |
| CliRegistry.SetArgs | firmware/util/cli_registry.cpp:246-283 | the count or -1, the start of each argument, and every byte of the buffer afterwards |
| CliRegistry.ArgumentText | firmware/util/cli_registry.cpp:254-281 | each argument is a terminated string of its own, with exactly its token's text |
| CliRegistry.HandlersReadTheirOwn | firmware/util/cli_registry.cpp:149-177 | where the argument count was checked, the handler reads exactly the arguments there are |
| CliRegistry.HandleActionWithParameter | firmware/util/cli_registry.cpp:285-463 | what the callback gets, or that it is not called; no handler reads an argument it was not given |
| CliRegistry.HandleConsoleLineInternal | firmware/util/cli_registry.cpp:473-503 | from the text of a line to the first action of that name and its arguments |
| CliRegistry.CalledIff | firmware/util/cli_registry.cpp:465-503 | a line calls an action with these arguments if and only if it is not refused, the action is the first one named by the first token, the callback takes exactly as many arguments as there are other tokens, and each argument is the conversion of its token; everything else is rejected |
| CliRegistry.CommandReaches | firmware/util/cli_registry.cpp:473-503 | a name and up to nine arguments in any quoting reach the dispatcher as exactly these words |
| CliRegistry.NeverCalled | firmware/util/cli_registry.cpp:285-503 | no line calls an action of those four types, whatever is registered and whatever counts as a number |
| CliRegistry.Callable | firmware/util/cli_registry.cpp:285-503 | for every other type, a concrete line of at most a hundred characters that calls it |
| CliRegistry.CallableIff | firmware/util/cli_registry.cpp:149-177 | given one text that reads as an integer and one that reads as a float, a registered action is called by some line that fits the buffer if and only if its type is none of four |
| Stepper.StepperMotor.Park | firmware/hw_layer/stepper.cpp:89-114 | parking that is interrupted leaves the position marked unknown and the valve that many steps further closed; parking that ends has the valve and the count at zero |
| Stepper.StepperMotor.SetInitialPosition | firmware/hw_layer/stepper.cpp:68-122 | a start parks when the position is unknown or parking is forced, and otherwise believes the saved position, right or wrong; it is refused only when parking was cut short |
| Stepper.StepperMotor.DoIteration | firmware/hw_layer/stepper.cpp:124-158 | one round moves the count one step towards the target and saves it; a valve that was where the count said stays there |
| Stepper.StepperMotor.Settle | firmware/hw_layer/stepper.cpp:124-158 | from a right count a fixed target is reached in exactly as many iterations as the valve is steps away, then the motor sleeps |
| Stepper.StepperMotor.DoIterationCutShort | firmware/hw_layer/stepper.cpp:146-157 | the round in which the power goes after the pulse and before the position is saved |
| Stepper.RightIff | firmware/hw_layer/stepper.cpp:68-158 | starting from the truth, an action keeps the remembered position right if and only if it is not a lost pulse that moved the valve |
| Stepper.OneStepOff | firmware/hw_layer/stepper.cpp:146-157 | a state from which a lost pulse makes the next start believe five while the valve is at six |
| Stepper.StartAfterLostPulse | firmware/hw_layer/stepper.cpp:68-122 | the start after a lost pulse has the right count if and only if parking is forced or the pulse did not move the valve; otherwise it is exactly one step off |
| Stepper.OffsetLaw | firmware/hw_layer/stepper.cpp:68-158 | until a parking begins, what is remembered is off by what it was off plus all slips since: a counted step that a stop blocked slips one way, a lost pulse that moved the valve the other |
| Stepper.RightAfterIff | firmware/hw_layer/stepper.cpp:68-158 | so until a parking begins, a right or wrong count is right afterwards if and only if the slips make up for what it was off, lost pulses included; a parking that ends makes it right |
| Stepper.WrongUntil | firmware/hw_layer/stepper.cpp:68-158 | while no parking begins and no pulse is lost, a wrong count becomes right if and only if exactly as many steps were counted against a stop as it was off |
| Stepper.TwoLostPulses | firmware/hw_layer/stepper.cpp:146-157 | a wrong count that a second lost pulse makes right, with no step against a stop |
| Stepper.RightRunIff | firmware/hw_layer/stepper.cpp:68-158 | in every run, with any number of power losses and parkings, the remembered position is right if and only if the slips since the last parking add up to nothing |
| Stepper.RightUnlessMisled | firmware/hw_layer/stepper.cpp:68-158 | the one-way consequence from the truth: it is right unless a pulse that moved the valve was lost since the last parking began |
| IntegerText.DigitsValue | firmware/util/efilib.cpp:63-86 | the digits read back as the number, in every base up to 16 |
| IntegerText.DigitsLength | firmware/util/efilib.cpp:56-89 | the number of digits is bounded, so the scratch buffer is never exceeded |
| IntegerText.WriteDigits | firmware/util/efilib.cpp:59-80 | the right-to-left loop ends inside the ten-byte buffer with exactly the digits |
| IntegerText.PrintedNumberReads | firmware/util/efilib.cpp:56-113 | reading the text of any 32-bit number above -2^31 gives the number back; no leading zeros, at most eleven characters |
| IntegerText.PrintedNumbersDiffer | firmware/util/efilib.cpp:56-113 | different numbers never print alike |
| IntegerText.Itoa10 | firmware/util/efilib.cpp:94-113 | the buffer holds exactly that text and a terminator, the rest of it unchanged |

## Hypotheses

- CAN: `transmit` never fails and the bus keeps the order of frames; waits for flow control do not time
  out while the peer keeps reading (without that, `SendWithoutFlowControl` applies). No frame is lost at
  the reader: its listener queue holds eight frames and drops what comes on top, and a full block is a
  FirstFrame and ten ConsecutiveFrames, so a frame is sent only while there is room. The real sender
  does not look; its reader has to keep up.
- Configuration: flash operations that finish succeed; neither an erased nor a half-written image passes
  its CRC. `SafeIffLucky` needs different images only in the direction that shows a loss;
  `SafeForAllImagesIff` needs no such thing.
- Boot loader: block programming and its read-back succeed.
- Clock: every sample is within reach of the sample behind the value its thread read.
- Limp manager: sensors, settings and interpolated tables are inputs of each update and may change from
  one update to the next. Engine quantities are reals. The timer results need a clock that does not go
  back.
- Logging: a message formats to fewer than 255 characters (see `FormatLine`).
- WiFi: there is one connection, and the socket takes every payload offered.
- Stepper: the valve saturates at its closed stop, its travel can be crossed by one parking, and targets
  are within the travel.

## Left out

- The CAN driver, DMA registers, USB and socket libraries, semaphores and mailboxes: channels, queues or atomic steps.
- The one-frame short-packet branch, verbose printing and unit-test switches of `serial_can.cpp`.
- SerialCan.CanStreamerState.ReceiveFrame: a single frame whose length nibble exceeds 7 is not modelled, because the code then reads beyond the eight frame bytes.
- SerialCanSystem.StreamTransparent: one direction at a time, because a peer that sends takes incoming data frames for flow control while it waits.
- ListSort.SortInPlace: the run length is unbounded, so the overflow of `insize` beyond 2^30 nodes is not modelled.
- FifoBuffers.FifoBuffer.Get: an empty queue, for which the code returns a stale element, is not modelled; its callers check first.
- The circular list sort, the VS2008 variants and the search and foreach macros of `utlist.h`: near-duplicates.
- External SNOR storage, console registration and the CRC polynomial of `flash_main.cpp`.
- ConfigStore.ConfigurationStore.EraseAndFlashCopy: the flash driver's error results are not modelled.
- ConfigStore.ConfigurationStore.WriteToFlashNow: failing flash operations are not modelled; the code only reports them.
- BlockFlash.FlashProgrammer.FlashWrite: empty writes and writes past the end of the device are not modelled.
- BlockFlash.FlashProgrammer.FlashAddToBlock: failing flash operations and empty calls are not modelled; the result of the block switch on entry is ignored by the code.
- LogPipeline.EveryRun: a message of 255 or more characters is not a step, because its line buffer is then no string.
- LogBuffers.FormatLine: what printf produces is an input.
- The timeout of `ReadTimeout` in `connector_uart_dma.cpp`, and DMA start and stop.
- The tempering and float outputs of TinyMT: they only compute from the state.
- Rs232.Receiver.ReceivePacket: the packet timeout is not modelled, because `TimerGet` is constantly 0 in this boot loader.
- Wifi.ServerSocket.Send: the driver thread's part is put inside the call; `WifiHandshake` interleaves the two.
- Closing and reopening of WiFi connections; a connection that is not there.
- LimpManagers.LimpManager.UpdateState: the computation of injector duty, interpolated limits and engine run time is not modelled; they are inputs.
- The commented-out main relay cut and `getTimeSinceAnyCut`, which only reads the timer that is modelled.
- CliRegistry.HandleActionWithParameter: `atoi` and `atoff` are parameters, so what counts as a number is left to them.
- The quote helpers `findEndOfToken` and `unquote`, which dispatch does not use.
- Stepper.StepperMotor.DoIteration: targets outside the travel are not modelled; nothing in the motor's code bounds them.
- IntegerText.ItoaSigned: -2^31 is excluded, because its negation overflows in C; the same holds for `Itoa10`.
- IntegerText.WriteDigits: radices below ten are excluded, because ten places are then too few for 32 bits; the only caller uses ten.
- Float printing, RTC conversion, debouncing, pin tables and everything under `config/`: tables and small members that would only add easy claims.
