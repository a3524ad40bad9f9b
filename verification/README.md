# Verification of the GSM tracker firmware

A Dafny model of the stateful core of a GSM tracking device for an STM32L1
microcontroller: the modem driver, the data EEPROM, the interrupt handshake, the
arming state machine, the logger, and integer printing. Every component is
modelled twice. A value-level specification says what one step does: a byte, an
event, a store. The methods of a class are the driver code in its own form, with
its loops, buffers and dropped results, and are proved against that
specification. The theorems are about the specification, over all inputs, all
interleavings and all runs.

`dafny verify dfyconfig.toml` checks everything.

| file | component |
|---|---|
| GsmParser.dfy, GsmFrames.dfy | the receive parser of the modem driver, and its whole-stream properties |
| GsmResponse.dfy | what a received text means |
| GsmTransmit.dfy | the stop-and-wait sender with its bounded queue, timer and resend |
| GsmHealth.dfy | balance, battery and signal supervision |
| WordBits.dfy, FlashChip.dfy | programming the data EEPROM |
| EepromLog.dfy | the circular byte log in the data EEPROM |
| WriteProtect.dfy | write protection by option bytes |
| ExtInterrupts.dfy | external interrupts and their thread |
| TrackingControl.dfy | the arming state machine and the accelerometer flag |
| LogQueue.dfy | heap blocks of the logger |
| IntegerText.dfy | integer printing |

How the system is modelled:

- A `char` stands for one UART byte. Frames follow section 5.7.1 of ITU-T V.250
  and sections 3.4.1 and 3.5.1 of 3GPP TS 27.005.
- A critical section, a mailbox call, a heap call and a thread's code between two
  such calls are atomic steps. A handler of the control state machine changes the
  state, switches the accelerometer and attempts its message in separate steps. A run
  is a list of events; an event that cannot happen changes nothing, so every list is
  a run. A mailbox is a bounded queue.
- The heap, the callbacks, the accelerometer and the EEPROM hardware are
  parameters: whether memory is granted and which block, whether a delivery
  succeeds, whether an angle is out of range, and for each EEPROM store how many
  polls it stays busy, whether it fails and what it then leaves in its word.
- A zero byte cannot be written to the EEPROM directly. It leaves the old byte,
  also inside a word store, and a store of a zero word erases. The error flags of
  the status register stay set, because this driver never clears them.
- History fields (accepted posts, writes, attempted messages, owners) are read by
  no step.

Where the code differs from its comments, the model follows the code:

- The comment on normal LED activity asks for good balance, signal and battery;
  the code counts any good readings, modulo 256 (`GsmHealth.CommentHoldsExactly`).
- `DATA_EEPROM_ProgramHalfWord` documents its result as the write status; across
  a word boundary it is the status before the writes
  (`FlashChip.CompleteMeansClearedExactly`).
- The receive buffer is not cleared between commands, so an empty response after
  a message notification is taken for a message header
  (`GsmFrames.TextFrameAlwaysDelivered`, `GsmFrames.ResponseAfterMessage`).
- The byte behind the receive buffer is written when `>` is stored at index 255
  (`GsmFrames.BufferBounds`). The model gives the buffer one cell more to say so.
- A command of 32 characters or more is re-sent with the memory that follows its
  unterminated copy (`GsmTransmit.ResentExactly`), and one of more than 128 is
  queued that way (`GsmTransmit.QueuedExactly`).
- The timer is started to track the response to a command, but only `OK` and `>`
  stop it (`GsmTransmit.AnswerSettlesExactly`), and the resend flag it raises is
  never cleared (`GsmTransmit.OnlyCopiesAfterTimeout`).
- `DATA_EEPROM_ProgramHalfWord` erases for a zero half word only, so a half word with
  one zero byte is not always written (`FlashChip.HalfWordWritesExactly`).
- A level is read as a `uint32_t`, so a negative one counts as good
  (`GsmHealth.LevelReadsBack`).
- The state is set before the accelerometer is switched off, so a sampling round can
  start in IDLE (`TrackingControl.RoundsStartEnabled`).
- The put reports success although its program operation may have failed
  (`EepromLog.PutWritesExactly`, `EepromLog.ErrorIsLastWrite`,
  `EepromLog.ReservedByteSafeExactly`).
- The ring log is a ring only until its 32-bit counter wraps
  (`EepromLog.SlotAfterWraps`).

## Model

| member | source | states |
|---|---|---|
| `GsmParser.Parser.CmdParse` | drivers/network/gsm_ll.c:524-683 | The chunk loop, with its non-consuming transitions, its nested loop and its deferred length decrement, leaves exactly the state, buffer, write index, flag and delivered texts of the byte-by-byte automaton `Run`; no byte past the chunk is read, FINISH is never a resting state, the result is RV_NOT_COMPLETED exactly when the last byte was stored as text, and the outer loop turns at most 2n times on n bytes |
| `GsmParser.Parser.Frame` | drivers/network/gsm_ll.c:542-574 | One framing iteration consumes a byte or leaves it to be looked at again with a lower rank; the read pointer runs ahead of the length by one exactly on entering FINISH |
| `GsmParser.Parser.StoreText` | drivers/network/gsm_ll.c:576-620 | The nested loop stores text until `>`, CR or the end of the chunk and is left in the storing state only with the chunk used up |
| `GsmParser.Parser.EndLine` | drivers/network/gsm_ll.c:636-657 | A line end lets the body of a `+CMT:` header follow once, and finishes any other command |
| `GsmParser.Parser.FinishCommand` | drivers/network/gsm_ll.c:666-679 | The text up to the write pointer is terminated in the buffer, delivered to the analysis, and the pointer rewound, with every other cell kept |
| `GsmParser.Parser.AnalyzeInPlace` | drivers/network/gsm_ll.c:1099-1107 | A battery or signal text loses its last comma to a NUL in the receive buffer; any other text leaves the buffer alone |
| `GsmParser.Parser.constructor` | drivers/network/gsm_ll.c:526-529 | The static initial values |
| `GsmFrames.ChunkIndependence` | drivers/network/gsm_ll.c:763-772 | For every cut of a byte stream into reads the parser ends with the same state, buffer, index, flag and delivered texts |
| `GsmFrames.TextFrameExact` | drivers/network/gsm_ll.c:557-679 | A `CR LF P CR LF` frame of any length, over any stale buffer, delivers the first 255 bytes of P exactly when the overlaid buffer does not begin with `+CMT:`; otherwise the parser waits for a body |
| `GsmFrames.TextFrameAlwaysDelivered` | drivers/network/gsm_ll.c:636-652 | The texts delivered whatever the buffer held before are exactly those that neither begin with `+CMT:` nor are a prefix of it |
| `GsmFrames.HeaderStored` | drivers/network/gsm_ll.c:636-646 | A `+CMT:` header line leaves the parser storing the body behind it |
| `GsmFrames.BodyStored` | drivers/network/gsm_ll.c:647-652 | The body line completes the notification: header and body are delivered as one text |
| `GsmFrames.MessageFrame` | drivers/network/gsm_ll.c:636-679 | The two-line message notification is delivered as one text, the inner CR LF dropped, over any stale buffer |
| `GsmFrames.PromptFrame` | drivers/network/gsm_ll.c:579-627 | The prompt is delivered as `>` |
| `GsmFrames.JunkSkipped` | drivers/network/gsm_ll.c:542-574 | Between frames any bytes without the pair CR LF, a trailing CR included, change nothing but whether LF is awaited: a CR not followed by LF is dropped and what follows it is looked at afresh |
| `GsmFrames.RejectedByte` | drivers/network/gsm_ll.c:557-663 | A byte other than the expected one, in each of the three states that expect one, is looked at again as if a line were waited for, and the stored text is kept |
| `GsmFrames.BrokenLinePrefixesNext` | drivers/network/gsm_ll.c:658-663 | A line that breaks off at a CR without LF is delivered in front of the next response, over any stale buffer, if the two together are no message header |
| `GsmFrames.BrokenPromptPrefixesNext` | drivers/network/gsm_ll.c:628-633 | So is a prompt without its space, with the `>` in the text |
| `GsmFrames.NotCompletedExactly` | drivers/network/gsm_ll.c:613-618 | A read reports RV_NOT_COMPLETED exactly when the parser was inside a text before its last byte and still is behind it |
| `GsmFrames.PromptInText` | drivers/network/gsm_ll.c:579-627 | A prompt inside a text is delivered with the text in front of it and leaves the message flag as it was |
| `GsmFrames.HeaderAloneAfterPrompt` | drivers/network/gsm_ll.c:636-652 | With the flag still up the header of the next notification is delivered alone |
| `GsmFrames.ReportCutInBuffer` | drivers/network/gsm_ll.c:1099-1142 | A delivered battery or signal report leaves the text in front of its last comma in the receive buffer, over any stale buffer |
| `GsmFrames.StreamRoundTrip` | drivers/network/gsm_ll.c:519-683 | Print/parse inverse: any list of frames, with junk before each that holds no CR LF but may end in CR, is delivered in order, each text cut to 255 bytes, whatever the buffer held |
| `GsmFrames.EchoBeforeResponse` | drivers/network/gsm_ll.c:557-573 | An echoed command in front of its response does not hide the response: the CR behind the echoed CR opens the frame |
| `GsmFrames.ReadsRoundTrip` | drivers/network/gsm_ll.c:763-772 | The same, for every way the stream is cut into reads |
| `GsmFrames.ResponseAfterMessage` | drivers/network/gsm_ll.c:636-679 | The response behind any message notification, on any stale buffer, is delivered exactly when it neither begins with `+CMT:` nor is a prefix of it; otherwise it is taken for a header, because the reused buffer still begins with `+CMT:` |
| `GsmFrames.EmptyResponseSwallowed` | drivers/network/gsm_ll.c:640-641 | So an empty response behind any message notification is never delivered, and the parser waits for a body |
| `GsmFrames.BufferBounds` | drivers/network/gsm_ll.c:579-620 | A terminator is written behind the 256-byte buffer exactly when a `>` is stored at index 255 and a command completes after it |
| `GsmFrames.NoPromptStaysInside` | drivers/network/gsm_ll.c:603-611 | Without `>` every store and terminator is inside the buffer |
| `GsmFrames.LongPromptWritesOutside` | drivers/network/gsm_ll.c:581-585 | For every plain text from rest, a prompt behind it writes the terminator at index 256 exactly when the text has at least 255 bytes |
| `GsmResponse.AckTexts` | drivers/network/gsm_ll.c:373-510 | Which texts open the transmitter, independently of the order of the tests: a power-up text wherever it occurs, `OK`, `>` and `ERROR` as whole texts, CMS and CME errors unless an earlier test hides them |
| `GsmResponse.StopTexts` | drivers/network/gsm_ll.c:463-470 | The texts that stop the response timer are exactly `OK` and `>` |
| `GsmResponse.ReportTexts` | drivers/network/gsm_ll.c:386-436 | The texts analysed as balance, battery or signal report, and what hides them |
| `GsmResponse.MessageTexts` | drivers/network/gsm_ll.c:449-458 | The texts taken for a message or its notification |
| `GsmResponse.LastFieldCut` | drivers/network/gsm_ll.c:1099-1142 | What the analysis leaves of a battery or signal report is the text in front of its last comma |
| `GsmTransmit.QueueRefinement` | drivers/network/gsm_ll.c:195-761 | In every interleaving of producers, timer and task the fresh writes followed by the waiting commands are the accepted posts in order, every other write repeats the one before it, and at most 20 commands wait |
| `GsmTransmit.PostAppendsExactly` | drivers/network/gsm_ll.c:222-243 | A post appends its text exactly when memory is granted and one of the 20 slots is free, and otherwise changes nothing |
| `GsmTransmit.PostsFillQueue` | drivers/network/gsm_ll.c:222-243 | Of any commands posted in a row the first ones that fit in 20 slots wait in order behind those already there, and the rest is refused |
| `GsmTransmit.StartUpPosts` | drivers/network/gsm_ll.c:313-326 | From start-up the first 20 of any posted commands wait in order |
| `GsmTransmit.EveryCommandWritten` | drivers/network/gsm_ll.c:705-761 | From any settled state, as many loops as commands wait, each answered OK, write them all in order, each once, and empty the queue |
| `GsmTransmit.WritesOldestOrRepeats` | drivers/network/gsm_ll.c:710-760 | Each step writes at most one command: the oldest accepted one not yet written or a repeat of the last write |
| `GsmTransmit.ShortCommandsRepeatExactly` | drivers/network/gsm_ll.c:710-750 | In every run in which every posted command has at most 31 characters, each write that is not an original equals the write just before it |
| `GsmTransmit.ResentExactly` | drivers/network/gsm_ll.c:703-750 | A command is re-sent unchanged whatever memory follows its 32-byte copy exactly when it has at most 31 characters |
| `GsmTransmit.QueuedExactly` | drivers/network/gsm_ll.c:205-211 | A command is queued unchanged whatever the heap held exactly when it has at most 128 characters |
| `GsmTransmit.StopAndWait` | drivers/network/gsm_ll.c:722-760 | The number of writes is the command number, and equals the turns of the acknowledgement to true plus one if a command is outstanding; without timeouts all those turns come from responses |
| `GsmTransmit.AckTurnsTrue` | drivers/network/gsm_ll.c:373-510 | The acknowledgement turns true exactly on a received text that sets it, or when the GSM thread wakes with the resend flag up |
| `GsmTransmit.TimerExactly` | drivers/network/gsm_ll.c:463-480 | The timer runs after a step exactly when the step wrote a command, or it ran before and the step neither fired it nor received `OK` or `>` |
| `GsmTransmit.AnswerSettlesExactly` | drivers/network/gsm_ll.c:463-505 | In any state that awaits an answer with the timer running, an answer that opens the transmitter keeps every later run from writing the command again next if and only if it stops the timer or the queue has no slot for a copy |
| `GsmTransmit.AnsweredCommandRepeated` | drivers/network/gsm_ll.c:471-505 | From the start-up state, for every command of at most 31 characters and every answer such as `ERROR` that leaves the timer running, a run writes the answered command again |
| `GsmTransmit.OnlyCopiesAfterTimeout` | drivers/network/gsm_ll.c:690-724 | The resend flag is never cleared: once it is up, as long as every wake finds memory and a slot, no new command is ever written |
| `GsmTransmit.HeardAck` | drivers/network/gsm_ll.c:373-510 | Over the texts of one read the acknowledgement is set exactly when one of them sets it |
| `GsmTransmit.StreamAcknowledges` | drivers/network/gsm_ll.c:763-772 | From the wire to the transmitter: a read that holds any list of good frames with junk before each opens the transmitter exactly when one of them is an acknowledgement |
| `GsmTransmit.GsmTask.CmdSend` | drivers/network/gsm_ll.c:195-243 | A post is queued at the tail exactly when there is memory and one of the 20 slots is free |
| `GsmTransmit.GsmTask.CmdSendFirst` | drivers/network/gsm_ll.c:245-265 | The same at the head of the queue, marked as a copy |
| `GsmTransmit.GsmTask.TimeoutCb` | drivers/network/gsm_ll.c:685-691 | The timer raises the resend flag |
| `GsmTransmit.GsmTask.ResendAfterTimeout` | drivers/network/gsm_ll.c:710-723 | With the resend flag up the kept copy goes to the head of the queue and the transmitter is opened, whether or not the copy found room |
| `GsmTransmit.GsmTask.DispatchNext` | drivers/network/gsm_ll.c:725-761 | A command is written only with the previous one answered, and then the head of the queue is |
| `GsmTransmit.GsmTask.WriteHead` | drivers/network/gsm_ll.c:728-759 | The head is written, counted, kept in 32 bytes, freed from the queue, and the timer started |
| `GsmTransmit.GsmTask.ReadPort` | drivers/network/gsm_ll.c:763-772 | A read is parsed and its completed texts heard in order |
| `GsmTransmit.GsmTask.Analyze` | drivers/network/gsm_ll.c:673-676 | The texts of one read act one after another as the step Receive says, for any number of texts |
| `GsmTransmit.GsmTask.CmdAnalyze` | drivers/network/gsm_ll.c:366-516 | The effect of one text on the acknowledgement and the timer |
| `GsmHealth.NormalActivityExactly` | drivers/network/gsm_ll.c:1088-1095 | Normal LED activity is requested exactly on a balance response at which the good readings since the previous balance, this one included, number 3 modulo 256 |
| `GsmHealth.CommentHoldsExactly` | drivers/network/gsm_ll.c:1088-1092 | The comment there promises balance, signal and battery OK. For windows of b battery and s signal readings since the last balance the request means that, in every run, if and only if b = s = 1 or b + s <= 1 |
| `GsmHealth.NormalAgainstComment` | drivers/network/gsm_ll.c:1088-1092 | For all other b and s a window with only two good readings and a good balance makes the request |
| `GsmHealth.NotificationsAreSeparated` | drivers/network/gsm_ll.c:1111-1131 | Between two notifications that went out the battery was read at 10 or more |
| `GsmHealth.OneNotificationPerLowRun` | drivers/network/gsm_ll.c:1111-1131 | The notifications that went out are as many as the maximal runs of readings below 10 in which one could be delivered |
| `GsmHealth.OneNotificationEach` | drivers/network/gsm_ll.c:1111-1131 | With no delivery failure there is exactly one per maximal run |
| `GsmHealth.LevelReadsBack` | drivers/network/gsm_ll.c:1102-1107 | The number printed behind the first separator is the level read, whatever follows, for all ints; a negative one becomes a uint32_t close to 2^32 |
| `GsmHealth.BatteryReportReads` | drivers/network/gsm_ll.c:1101-1107 | A `+CBC: c,level,mV` report is read as its level, for all numbers |
| `GsmHealth.SignalReportReads` | drivers/network/gsm_ll.c:1134-1141 | A `+CSQ: level,errors` report is read as the number behind the space, for all numbers |
| `GsmHealth.BalanceReportReads` | drivers/network/gsm_ll.c:1053-1063 | A `+CUSD: type` report is read for its type, whatever follows, and is readable exactly when its type is above 1 or the word before the amount is there |
| `GsmHealth.ReportsClassified` | drivers/network/gsm_ll.c:427-429 | The printed battery and signal reports are taken for what they are, for all numbers |
| `GsmHealth.ErrorShownExactly` | drivers/network/gsm_ll.c:1065-1161 | An error is shown exactly for an unhealthy reading, unless its notification failed; a balance of an unexpected type counts as neither |
| `GsmHealth.HealthMonitor.Analyze` | drivers/network/gsm_ll.c:1036-1163 | The counter, the notification flag and the ordered actions of every response; it fails exactly when a low-battery notification was not delivered, and then shows no error |
| `GsmHealth.HealthMonitor.constructor` | drivers/network/gsm_ll.c:1040-1041 | The static initial values |
| `WordBits.WithoutByte` | drivers/eeprom/stm32l1xx_flash.c:805-808 | The shifted mask clears exactly one byte of the word |
| `WordBits.WithoutHalf` | drivers/eeprom/stm32l1xx_flash.c:864-867 | The shifted mask clears exactly two adjacent bytes of the word |
| `FlashChip.ProgramByteRefines` | drivers/eeprom/stm32l1xx_flash.c:779-821 | On any hardware a COMPLETE return means the memory is the old one with that byte replaced, zero included; any return leaves the other words alone |
| `FlashChip.FastProgramByteRefines` | drivers/eeprom/stm32l1xx_flash.c:610-656 | The same for the fast form |
| `FlashChip.ProgramByteCompletes` | drivers/eeprom/stm32l1xx_flash.c:779-821 | Exactly when it returns COMPLETE on an unlocked chip and any hardware: no error flag is up, what is under way ends in time, and the one store, or the two that a zero byte takes, succeed in time |
| `FlashChip.ZeroByteCorrect` | drivers/eeprom/stm32l1xx_flash.c:805-810 | Erase and read-modify-write of the enclosing word clears one byte and keeps its three neighbours |
| `FlashChip.RewriteCorrect` | drivers/eeprom/stm32l1xx_flash.c:809-810 | Erase then program puts the word there when the second status is COMPLETE, although the first status is dropped |
| `FlashChip.EraseCorrect` | drivers/eeprom/stm32l1xx_flash.c:577-595 | A completed erase clears the word and no other byte |
| `FlashChip.FastProgramWordCorrect` | drivers/eeprom/stm32l1xx_flash.c:740-763 | A COMPLETE program of an erased word stores it; other words are untouched |
| `FlashChip.ProgramHalfWordClears` | drivers/eeprom/stm32l1xx_flash.c:837-886 | Clearing a half word clears exactly its two bytes at all four offsets when the operations complete |
| `FlashChip.HalfWordOnSoundHardware` | drivers/eeprom/stm32l1xx_flash.c:837-886 | On hardware whose stores succeed in time, a ready unlocked chip returns COMPLETE and clears exactly the two bytes, at all four offsets |
| `FlashChip.CompleteMeansClearedExactly` | drivers/eeprom/stm32l1xx_flash.c:862-875 | A COMPLETE return guarantees the half word is clear exactly when it lies inside one word; across words the statuses are dropped |
| `FlashChip.LockedKeepsMemory` | drivers/eeprom/stm32l1xx_flash.c:871-875 | A locked chip keeps its memory and the word-crossing call still returns COMPLETE |
| `FlashChip.HalfWordLeaves` | drivers/eeprom/stm32l1xx_flash.c:853-859 | A non-zero half word on a ready, unlocked chip and sound hardware writes its non-zero bytes and leaves the old byte for a zero one |
| `FlashChip.HalfWordWritesExactly` | drivers/eeprom/stm32l1xx_flash.c:853-859 | So it is in memory if and only if a byte that should become zero was zero already |
| `FlashChip.LockedProgramFails` | drivers/eeprom/stm32l1xx_flash.c:779-821 | A locked chip keeps its memory and returns the protection error, in both forms and for every byte |
| `FlashChip.FaultyProgramFails` | drivers/eeprom/stm32l1xx_flash.c:790-792 | With an error flag up nothing is written and that error is returned |
| `FlashChip.BusyProgramTimesOut` | drivers/eeprom/stm32l1xx_flash.c:790-792 | On a chip busy for 0x8000 polls or more nothing is written and the timeout is returned |
| `FlashChip.TimeoutThenRetry` | drivers/eeprom/stm32l1xx_flash.c:1615-1640 | A second wait after a timeout is told that the operation is done exactly when it ends within that wait |
| `FlashChip.FixedTimeKept` | drivers/eeprom/stm32l1xx_flash.c:623-651 | The fixed-time mode is cleared by the fast form once the chip is ready, by the other form for a zero byte once the erase is done, and kept otherwise |
| `FlashChip.Flash.GetStatus` | drivers/eeprom/stm32l1xx_flash.c:1578-1607 | Busy, then protection error, then program error, then complete |
| `FlashChip.Flash.WaitForLastOperation` | drivers/eeprom/stm32l1xx_flash.c:1615-1640 | The countdown loop in closed form: COMPLETE only on an idle chip without error flag, TIMEOUT from 0x8000 busy polls on, even if the operation ended with the last poll |
| `FlashChip.Flash.Unlock` | drivers/eeprom/stm32l1xx_flash.c:456-464 | The lock bit is clear afterwards, whatever it was |
| `FlashChip.Flash.Lock` | drivers/eeprom/stm32l1xx_flash.c:471-475 | The lock bit is set afterwards |
| `FlashChip.Flash.EraseWordAt` | drivers/eeprom/stm32l1xx_flash.c:577-595 | The erase as the byte-level specification says it |
| `FlashChip.Flash.FastProgramWordAt` | drivers/eeprom/stm32l1xx_flash.c:740-763 | The word store as the byte-level specification says it |
| `FlashChip.Flash.ClearByte` | drivers/eeprom/stm32l1xx_flash.c:805-810 | The masked 32-bit read-modify-write is the byte-level one |
| `FlashChip.Flash.ProgramByteAt` | drivers/eeprom/stm32l1xx_flash.c:779-821 | The driver code, with its polling and masked read-modify-write, does to the chip what the byte-level function says |
| `FlashChip.Flash.FastProgramByteAt` | drivers/eeprom/stm32l1xx_flash.c:610-656 | The driver code, with its polling and masked read-modify-write, does to the chip what the byte-level function says |
| `FlashChip.Flash.ProgramHalfWordAt` | drivers/eeprom/stm32l1xx_flash.c:837-886 | The driver code refines the byte-level function, on all four offsets |
| `EepromLog.LogRefinesRing` | drivers/data_eeprom.c:47-60 | Any run of completed puts on the chip is a run on a plain byte map, with the 32-bit counter |
| `EepromLog.RingHoldsLast` | drivers/data_eeprom.c:51-56 | While the counter does not wrap the last 4095 bytes are in their slots and every byte outside the ring is kept |
| `EepromLog.RingLog` | drivers/data_eeprom.c:47-60 | After any k <= 2^32 completed puts the last min(k, 4095) bytes sit at EEPROM_START + (j mod 4095); the reserved byte and everything beyond EEPROM_END keep their value |
| `EepromLog.PutCompletesExactly` | drivers/data_eeprom.c:55-57 | When the program operation of a put completes, on any hardware, in terms of the chip before the put and the outcome of its stores |
| `EepromLog.PutWritesExactly` | drivers/data_eeprom.c:55-57 | On hardware whose stores succeed in time, a put writes its byte whatever the byte is, and nothing else, if and only if no error flag is up and what is under way ends in time |
| `EepromLog.SoundRunCompletes` | drivers/data_eeprom.c:47-60 | On such hardware a run of puts completes throughout if and only if it starts with a ready chip |
| `EepromLog.RingLogOnSoundHardware` | drivers/data_eeprom.c:47-60 | So there the ring log property needs a ready chip at the start and nothing else |
| `EepromLog.PutsStayInside` | drivers/data_eeprom.c:55-57 | Whether or not the puts complete, nothing beyond EEPROM_END changes and the chip is locked again after each |
| `EepromLog.ReservedByteSafeExactly` | drivers/data_eeprom.c:55-57 | The reserved byte survives every put at an address, on every chip and hardware and completed or not, exactly when the address is not in its word |
| `EepromLog.LogEndsWithFault` | drivers/data_eeprom.c:55-57 | Once an error flag is up, no later put completes or changes the memory, for any run of puts; the status that says so is dropped |
| `EepromLog.ErrorIsLastWrite` | drivers/data_eeprom.c:55-57 | A put whose program operation returns an error is the last one that can change the memory |
| `EepromLog.SlotAfterWraps` | drivers/data_eeprom.c:51-53 | Put number n goes to slot n mod 4095 exactly when the number of counter wraps before it is a multiple of 4095, so the first wrap breaks the ring order |
| `EepromLog.ReadBack` | drivers/data_eeprom.c:35-60 | What was put last is read back from its slot |
| `EepromLog.ReadableExactly` | drivers/data_eeprom.c:35-45 | Exactly the reserved byte and the ring can be read, and are read as they are |
| `EepromLog.PutOnRing` | drivers/data_eeprom.c:47-60 | One put is one write on the ring when it completes, and leaves the chip locked |
| `EepromLog.EepromStream.PutByte` | drivers/data_eeprom.c:47-60 | The counter wraps at 32 bits; unlock, program, lock, with the status dropped |
| `ProtectionBits.EnableBits` | drivers/eeprom/stm32l1xx_flash.c:1044-1053 | Enabling is union of the 32 protected sectors with the mask, read from the low halves |
| `ProtectionBits.DisableBits` | drivers/eeprom/stm32l1xx_flash.c:1055-1065 | Disabling is difference |
| `ProtectionBits.ConfigSector` | drivers/eeprom/stm32l1xx_flash.c:1028-1072 | A call decides the sectors of its mask and leaves the others as they were |
| `WriteProtect.ProtectionRuns` | drivers/eeprom/stm32l1xx_flash.c:1028-1072 | After any sequence of calls with any masks a sector is protected exactly when the fold of unions and differences has it, whatever the high halves held |
| `WriteProtect.RegistersComplemented` | drivers/eeprom/stm32l1xx_flash.c:1044-1065 | After any call each high half is the complement of its low half |
| `ProtectionBits.ConfiguredExactly` | drivers/eeprom/stm32l1xx_flash.c:1044-1065 | Union or difference of the 32 protected bits with the mask, and the complements, determine both registers, and the two casts compute them |
| `ProtectionBits.NewRegisters` | drivers/eeprom/stm32l1xx_flash.c:1044-1065 | The two stored values protect the old sectors with those of the mask added or removed, and each carries the complement of its low half |
| `OptionBytes.OptionBank.WrpConfig` | drivers/eeprom/stm32l1xx_flash.c:1028-1072 | On any hardware COMPLETE means that the sectors of the mask were added or removed and the complements are right; a chip that is not ready leaves the registers alone; the status is that of the second wait behind two stores, each of which may fail |
| `OptionBytes.ConfigCompletesExactly` | drivers/eeprom/stm32l1xx_flash.c:1028-1072 | Exactly when a configuration completes, on any hardware: the chip is ready, neither store fails, and the second ends in time |
| `ExtInterrupts.TokenConservation` | drivers/ext_api.c:35-76 | In every interleaving enabled + occurrences in the mailbox + in the hands of the thread stays what it was for each channel, at most 1 |
| `ExtInterrupts.PostsNeverFail` | drivers/ext_api.c:37-43 | The unchecked post always finds a slot, and every interrupt taken is pending or had exactly one callback, in order |
| `ExtInterrupts.InterruptTaken` | drivers/ext_api.c:35-46 | An interrupt on an enabled channel is always taken, whatever the thread is doing |
| `ExtInterrupts.ServesOldest` | drivers/ext_api.c:69-73 | One round of the thread runs the callback of the oldest channel once and enables it |
| `ExtInterrupts.RoundsServeAll` | drivers/ext_api.c:66-75 | As many rounds as channels wait run all their callbacks, in order |
| `ExtInterrupts.EveryInterruptServed` | drivers/ext_api.c:66-75 | Whatever ran before, finitely many steps of the thread make the callbacks run equal the interrupts taken, in order, with every starting channel enabled again |
| `ExtInterrupts.PostSucceeds` | drivers/ext_api.c:39-41 | By pigeonhole an enabled channel finds a free slot |
| `ExtInterrupts.StepConservesTokens` | drivers/ext_api.c:35-76 | No step creates or loses the token of any channel |
| `ExtInterrupts.StepKeepsFifo` | drivers/ext_api.c:35-76 | No step loses, repeats or reorders an interrupt taken |
| `ExtInterrupts.DistinctFit` | drivers/ext_api.c:29-30 | Distinct channels fit the mailbox: the pigeonhole argument |
| `ExtInterrupts.ExtDriver.InterruptCb` | drivers/ext_api.c:35-46 | The channel is disabled and appended to the mailbox, which is never full |
| `ExtInterrupts.ExtDriver.FetchChannel` | drivers/ext_api.c:69-69 | The thread takes the oldest channel, and every channel keeps its token |
| `ExtInterrupts.ExtDriver.CallBack` | drivers/ext_api.c:71-71 | The callback of the fetched channel runs once, before the channel is enabled |
| `ExtInterrupts.ExtDriver.EnableChannel` | drivers/ext_api.c:73-73 | Exactly that channel is enabled again |
| `ExtInterrupts.ExtDriver.constructor` | drivers/ext_api.c:78-89 | An empty mailbox and a waiting thread |
| `TrackingControl.TraceSafety` | profiles/tracking/profile.c:68-295 | In every interleaving the messages attempted, with the one the running handler owes, are finished cycles ARM ALARM? DISARM and one unfinished cycle, and the state is the one its tail determines |
| `TrackingControl.TraceComplete` | profiles/tracking/profile.c:68-295 | Conversely every such trace is attempted by some run |
| `TrackingControl.AlarmAnswersItsCycle` | profiles/tracking/profile.c:143-180 | In every run the event of an accepted out-of-range round makes the handler owe ALARM exactly when the events queued ahead of it lead to ACTIVE, and in the cycle the round was in if and only if no cycle was begun during the round, the state was ACTIVE as it ended, and neither a stop nor an alarm was queued ahead |
| `TrackingControl.NoAlarmWithoutCause` | drivers/motion/accelGyro.c:356-397 | In every run in which no round ends out of range and no alarm event is posted, no alarm is attempted or owed |
| `TrackingControl.RoundEndPostsExactly` | drivers/motion/accelGyro.c:385-393 | The end of a round adds the alarm event exactly when a round was under way, it was out of range and a slot was free |
| `TrackingControl.PostAppendsExactly` | common/control.c:104-118 | A post is queued exactly when fewer than 5 events wait, and otherwise changes nothing |
| `TrackingControl.EveryEventHandled` | common/control.c:76-91 | As many rounds of the control thread as events wait handle them all, in order, and lead to the state the walk over them says |
| `TrackingControl.WaitReturnsExactly` | drivers/motion/accelGyro.c:536-548 | The wait returns exactly with the flag up, whatever else is going on |
| `TrackingControl.ReachableStates` | common/control.c:46-91 | In every interleaving the state is IDLE, ACTIVE or ALARM with a registered handler, an enabled accelerometer means not IDLE at event boundaries and everywhere but between the two writes of a stop handler, and the events are handled in the order accepted with at most 5 waiting |
| `TrackingControl.RoundsStartEnabled` | drivers/motion/accelGyro.c:536-548 | In every interleaving a sampling round starts only in a period that an arming switch opened and no disarming switch has closed; it starts in IDLE exactly when a stop handler has set the state and not yet switched the flag off |
| `TrackingControl.RoundStartsInIdle` | profiles/tracking/profile.c:156-161 | That window exists: in some run a round starts with the state IDLE |
| `TrackingControl.EnabledExactly` | drivers/motion/accelGyro.c:498-534 | Whatever ran before the accelerometer came up, from then on it is enabled exactly out of IDLE at every event boundary of every run if and only if it came up in IDLE or while a start handler had still to switch it on |
| `TrackingControl.ArmedWithoutSensor` | drivers/motion/accelGyro.c:498-515 | An arming cycle whose switch found the accelerometer down is not watched to its end: in every run the flag is raised only after the state was IDLE again |
| `TrackingControl.ReportConservation` | profiles/tracking/profile.c:104-126 | Every state request and every balance event handled is noted once, with the state that handled it; for each state separately a balance event leads to a report exactly when the request or balance event before it there was a request, so the reports plus the pending flag never exceed the requests |
| `TrackingControl.HandledKeepsInv` | common/control.c:65-91 | Every handler keeps the flag, queue and report invariants |
| `TrackingControl.Controller.constructor` | profiles/tracking/profile.c:417-423 | The registrations of profileInit |
| `TrackingControl.Controller.StateAdd` | common/control.c:46-58 | A handler is registered exactly for a state from 0 to 14 |
| `TrackingControl.Controller.EventPost` | common/control.c:104-118 | An event is queued unless 5 are waiting |
| `TrackingControl.Controller.TaskRound` | common/control.c:76-91 | The oldest event goes to the handler of the current state, which runs to its end |
| `TrackingControl.Controller.ChangeState` | common/control.c:65-72 | Dispatch through the slot of the state |
| `TrackingControl.Controller.RunIdle` | profiles/tracking/profile.c:68-141 | In IDLE only START leaves the state, enabling the accelerometer and attempting ARM; a state request raises the flag and a balance event lowers it with one report |
| `TrackingControl.Controller.RunActive` | profiles/tracking/profile.c:143-219 | In ACTIVE only STOP and ALARM leave the state, STOP disabling the accelerometer and attempting DISARM, ALARM attempting ALARM; requests and reports as in IDLE, with a flag of its own |
| `TrackingControl.Controller.RunAlarm` | profiles/tracking/profile.c:221-295 | In ALARM only STOP leaves the state, disabling the accelerometer and attempting DISARM; requests and reports with a flag of its own |
| `TrackingControl.Controller.ImuSwitch` | drivers/motion/accelGyro.c:498-534 | The flag changes only after a successful initialisation, and the handler goes on to its message either way |
| `TrackingControl.Controller.SwitchAndSend` | profiles/tracking/profile.c:88-93 | A start or stop handler ends with the switch and then the message, whether or not the switch succeeds |
| `TrackingControl.Controller.SmsSend` | profiles/tracking/profile.c:90-93 | One attempt at the message the handler owes |
| `TrackingControl.Controller.ImuWaitReturns` | drivers/motion/accelGyro.c:536-548 | The wait returns with the flag up; the state is then IDLE exactly inside a stop handler |
| `TrackingControl.Controller.RoundDone` | drivers/motion/accelGyro.c:356-397 | An angle out of range posts the alarm event |
| `IntegerText.Itoa` | drivers/utils.c:94-144 | For every int above INT_MIN and every buffer length it succeeds exactly when sign, digits and terminator fit, leaves the decimal text and a NUL, and never writes behind the length |
| `IntegerText.TextReadsBack` | drivers/utils.c:105-131 | The text is a decimal number that reads back as the value |
| `IntegerText.TextIsCanonical` | drivers/utils.c:105-131 | No superfluous leading zero, no NUL inside |
| `IntegerText.WriteDigits` | drivers/utils.c:118-130 | The digit loop writes the digits least significant first, or stops when the buffer is full |
| `IntegerText.Reverse` | drivers/utils.c:24-46 | The NUL-terminated text at a position is reversed in place and nothing else changes |
| `IntegerText.StrLen` | drivers/utils.c:35-35 | The distance to the first NUL |
| `IntegerText.FinishText` | drivers/utils.c:132-143 | Reversing behind the sign turns the digits into the text |
| `LogQueue.Ownership` | common/logging.c:39-100 | In every interleaving of any number of producers with the consumer the live blocks are exactly those held by a producer, in the mailbox or held by the consumer, each by one of them; no block is used or freed when not live; allocations are frees plus live blocks |
| `LogQueue.PrintedInOrder` | common/logging.c:39-100 | The printed texts are a prefix of the accepted posts in order, and the rest is with the consumer and in the mailbox |
| `LogQueue.EveryTextPrinted` | common/logging.c:45-58 | As many turns of the consumer as blocks wait print every accepted text in order; with no producer at work no block is live then |
| `LogQueue.StepKeepsOwners` | common/logging.c:39-100 | No step gives a block two holders or loses one |
| `LogQueue.StepKeepsCounts` | common/logging.c:53-98 | No step uses a block that is not live, and each free frees one |
| `LogQueue.StepKeepsTexts` | common/logging.c:93-98 | The text of a queued block is the one its producer copied |
| `LogQueue.TurnPrintsOldest` | common/logging.c:48-57 | A turn of the consumer prints the oldest accepted text not yet printed |
| `LogQueue.LogTask.Alloc` | common/logging.c:82-82 | Allocation hands the producer a block that was not live |
| `LogQueue.LogTask.CopyText` | common/logging.c:93-93 | The text is in the block, and no other block changes |
| `LogQueue.LogTask.PostBlock` | common/logging.c:95-95 | The block goes to the tail of the mailbox exactly when fewer than 15 wait; otherwise the producer still has it |
| `LogQueue.LogTask.GiveBack` | common/logging.c:97-98 | A refused block is freed by its producer |
| `LogQueue.LogTask.LogEvent` | common/logging.c:61-100 | Without interference the text is queued in a block of its own exactly when the heap gives one and the mailbox has a slot; otherwise nothing stays allocated |
| `LogQueue.LogTask.FetchBlock` | common/logging.c:48-48 | The consumer takes the oldest block from the mailbox |
| `LogQueue.LogTask.PrintBlock` | common/logging.c:51-51 | The text printed is the one in the fetched block |
| `LogQueue.LogTask.FreePrintedBlock` | common/logging.c:53-56 | The printed block is freed |
| `LogQueue.LogTask.Turn` | common/logging.c:48-57 | The oldest block is printed and freed |

## Left out

- GsmTransmit.GsmTask.CmdSend: does not model the heap block that a refused post keeps allocated; ownership is proved for the logger.
- GsmTransmit.StopAndWait: does not model the wrap of the 32-bit command number.
- GsmTransmit.QueueRefinement: does not promise that every accepted command is written; after a timeout that is false, as GsmTransmit.OnlyCopiesAfterTimeout shows.
- GsmTransmit.GsmTask.WriteHead: does not model a failing serial write, which the driver only logs.
- GsmResponse.AfterAnalysis: leaves the buffer alone for a battery or signal text without a comma, where the code would follow a null pointer.
- GsmHealth.HealthMonitor.Analyze: takes texts that hold the separators and, in a balance text of type 0 or 1, the word `rahunku`, without which the code would follow a null pointer; it takes the balance `atof` finds as a real number; `atoi` beyond the range of an int and the stored readings that a state report shows are not modelled.
- OptionBytes.OptionBank.WrpConfig: does not model the option lock or the reload of the option bytes.
- FlashChip.Flash.ProgramHalfWordAt: takes aligned addresses for non-zero half words; what the hardware does with others is not in the code.
- FlashChip.Flash.Unlock: the two-key sequence is one step.
- FlashChip.Flash.WaitForLastOperation: the outcome of a store is fixed by its number; supply faults and the HD and MDP variants of the chip are not modelled.
- EepromLog.PutsStayInside: does not say that the reserved byte is kept; for puts that do not complete that holds outside its word only, as EepromLog.ReservedByteSafeExactly shows.
- IntegerText.Itoa: leaves out INT_MIN, whose negation overflows, and the null buffer.
- TrackingControl.ReportConservation: the low-voltage message, the requests sent to the modem, the texts of the reports and the floating-point thresholds are not modelled.
- LogQueue.LogTask.PrintBlock: the text is printed as it is; the code passes it as a format string, so a `%` in it would be interpreted.
- LogQueue.LogTask.LogEvent: formatting into the 256-byte buffer and the line printed when the heap is empty are not modelled.
- ExtInterrupts.ExtDriver.constructor: any number of channels; the table of callbacks and the edge modes are not modelled.
- The parser's checks for a negative length never hold and are left out, with all checks for null pointers.
- Resynchronisation of the parser after arbitrary corruption: what one broken line or prompt does to the next response is proved, what longer corruption does is not, because the framing is ambiguous.
- The retry and ready logic of `gsmCmdSend`, the reading of short messages, the phone book and the GPRS commands.
- Liveness of the threads, timing, LEDs, pins, power and serial set-up, the command line, the GPS, WiFi and stepper drivers, and the register traffic of the accelerometer.
