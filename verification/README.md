# Motor controller firmware: a verified model

This project models stateful parts of the motor controller firmware and proves what they keep
over loops, whole runs, or a sender and a receiver together. It needs Dafny 4.11 only:
`dafny verify dfyconfig.toml`.

Code that changes things step by step is a class whose methods have the source's branches and loops.
Each method is tied by its `ensures` to a function on values (`Step`, `ProcessFrame`, `Iterate`,
`InMode`, `Verify`, `Tick`, ...), and the lemmas are about those functions: they quantify over every
state, every input and every run.

`CanWire`, `BmsWire`, `CodeBytes` and `PpmDrive` say what these functions come to for a single step without
their helpers: in the bytes and bits of the frames and of the flash, in the speeds, inputs and limits that the
motor is driven by.

| files | part of the firmware | main results |
|---|---|---|
| `CanFrames`, `CanReassembly`, `CanWire` | a buffer as CAN fragments, and the reassembler that has no sender id to go by | sender loops, receiver state machine |
| `CanStabilization` | one transmission meets stale buffers | `RetryArrives`, `DivertedIff`, `LossesAreBounded` |
| `CanInterleaving`, `CanReplies` | several transmissions at once, among stale buffers, and their replies | `InterleavingsArrive`, `RepliesGoHome`, `AnswerComesBack` |
| `CanProvenance` | every sequence of frames whatsoever | `DeliveredIsChain`, `DeliveredOnce` |
| `RxRing` | the frame ring between two threads | `ProcessedIsPrefixOfReceived`, `OverrunLosesFrames` |
| `BmsCodec`, `BmsRoundTrip`, `BmsWire` | the multi-frame BMS status report | `StatusRoundTrip`, `SharedBusRoundTrip`, `FirstReportArrives`, `CountsArriveIff` |
| `BmsTrackers` | the limiting values over several BMSs | `TrackersConverge`, `StaleStartConverges`, `OneRoundSufficesIff` |
| `BmsLimits`, `BmsFleet` | the current limits made from them | `LimitsAreExact`, `LimitsAreMonotone`, `FleetIsProtected`, `OneStopsTheFleet` |
| `PpmApp`, `PpmSafety`, `PpmDrive` | the PPM control loop | `DrivingTakesIdle`, `StartWaitsIff`, `IdleReleases`, `ReverseIsEarned`, `ReverseIsSlowInRuns` |
| `Winch` | the SkyPUFF winch | `RewindsBelowPeak`, `PullsTowardZero`, `DistanceBoundIff`, `ComesToRest` |
| `FlashIntegrity` | the CRC over the application image | `CycleRefinesOneShot`, `ScanRecovers`, `OneWordIsNoticed`, `StoreThenVerify` |
| `CodeCache`, `CodeBytes` | stored code and its cached check | `CacheIsTransparent`, `AnswersTellTheFlash`, `SpillFalsifiesCacheIff` |
| `Crc16` | the table-driven 16-bit CRC | `TableRefinesRegister`, `OneByteIsNoticed` |
| `SwdTap` | serial wire debug bit sequences | `ParityRoundTrip`, `Transfer` |
| `Timeout` | the timeout and watchdog supervisor | `CommandsTellHistory`, `TimesOutIff`, `WatchdogFedIff` |

`Bytes`, `Reals` and `BmsClock` hold what several files share.

Where the code differs from its own comments, or from what a reader would expect, the model follows
the code and the difference is a lemma or a note:

- The safe start comment names startup as a reason to wait for idle (applications/app_ppm.c:385).
  `app_ppm_start` (applications/app_ppm.c:71-74) does not restart the counter: a thread that is started
  with a counter of 50 obeys a full input at once (`PpmSafety.RestartDrivesAtOnce`), and the wait is a
  full one exactly if the counter is zero at the start (`PpmSafety.StartWaitsIff`). The firmware always
  configures after it has started the thread (applications/app.c:96, 110 and 152), which restarts the
  counter; if the thread runs no iteration in between, every start is followed by the full wait
  (`PpmSafety.DrivingTakesFullWait`).
- The smart reverse mode sets a duty cycle although the counter is below its threshold
  (`PpmSafety.SmartRevBypassesSafeStart`).
- The image check says it stores the CRC if the flag is blank (flash_helper.c:319-320). It does so for
  every flag that is not zero, so the store succeeds exactly when the old CRC word has no zero bit where
  the CRC of the image with a cleared flag has a one (`FlashIntegrity.StoreThenVerify`; `StoreCanFail`
  gives images for which it does not).
- The scan for data before erasing code (flash_helper.c:191-197) looks at the first byte of the sector
  each time round (`CodeCache.EraseBlanksIff`, with an input in `EraseKeepsData`).
- A BMS report without cells, or without temperatures, leaves the receiver's old count in place
  (`BmsRoundTrip.CountsArriveIff`, with an input in `CountsOfNothingAreLost`).
- One round of reports makes a BMS tracker right exactly if it tracks nobody at first, or its own sender is
  now the most limiting, or what it holds does not hide a more limiting member
  (`BmsTrackers.OneRoundSufficesIff`, with an input for the other case in `OneRoundIsNotEnough`).
- A timeout of more than 429496 ms wraps in the conversion to ticks (`Timeout.TimeoutExactIff`), and a
  timeout ends by itself when the 32-bit clock comes round to the last update (`Timeout.TimeoutEndsAtWrap`).
- A write that runs over the end of its sector and clears bits of the next code can falsify the cached check
  of that code, with the CRC of the source, and no other write can (`CodeCache.SpillFalsifiesCacheIff`).
- The winch can wind inside the inner braking zone if the configured overwinding is negative
  (`Winch.DistanceBoundIff`).

## Model

| member | source | states |
|---|---|---|
| CanFrames.SendFills | comm/comm_can.c:455-475 | The loop over 8-bit offsets sends the fragments from 0 on, up to the end or to the first offset that needs 16 bits. |
| CanFrames.SendLongFills | comm/comm_can.c:477-491 | The loop over 16-bit offsets sends all fragments from there on. |
| CanFrames.SendBuffer | comm/comm_can.c:443-505 | Together with the trailer these are exactly the frames of `Transmission`: one short frame up to 6 bytes, else fills covering the payload and then length and CRC. |
| CanFrames.FrameAtReadsBack | comm/comm_can.c:456-491 | The receiver reads back from a fill frame, with an 8-bit or a 16-bit offset, the offset and the bytes it was cut out at. |
| CanFrames.FillsTilePayload | comm/comm_can.c:455-491 | The fragments carry the payload gap-free and without overlap, each naming the offset where the one before it ended. |
| CanWire.ShortBytes | comm/comm_can.c:446-453 | Up to 6 bytes are one frame: the sender's id, the send code, the payload. |
| CanWire.FillBytes | comm/comm_can.c:456-475 | At offsets up to 255: the offset in one byte and 7 bytes of payload, or the rest of it. |
| CanWire.LongFillBytes | comm/comm_can.c:477-491 | Behind them: the offset in two bytes, the high one first, and 6 bytes of payload, or the rest. |
| CanWire.TrailerBytes | comm/comm_can.c:493-505 | Id, send code, length and CRC of the payload, high bytes first. |
| CanWire.TransmissionLayout | comm/comm_can.c:443-505 | A longer payload is exactly as many fragments as it takes, number k at offset 7 k up to 259 and then every 6 bytes, and the trailer. |
| CanReassembly.FirstAt | comm/comm_can.c:1628-1633 | The search finds the first buffer at the offset, and -1 only if there is none. |
| CanReassembly.CanReceiver.constructor | comm/comm_can.c:78-84 | All buffers start idle. |
| CanReassembly.CanReceiver.FindBuffer | comm/comm_can.c:1628-1633 | The search loop returns the first buffer standing at the offset. |
| CanReassembly.CanReceiver.Memcpy | comm/comm_can.c:1643 | The copy overwrites exactly the bytes from the offset on and leaves every other buffer alone. |
| CanReassembly.CanReceiver.FillRxBuffer | comm/comm_can.c:1622-1645 | A short fill goes to the first buffer at its offset, or to buffer 0 if it starts a payload, else nowhere; it cannot write beyond 262 bytes. |
| CanReassembly.CanReceiver.FillRxBufferLong | comm/comm_can.c:1647-1673 | A long fill does the same unless it would not fit, and then changes nothing. |
| CanReassembly.CanReceiver.SetReply | comm/comm_can.c:1680-1688 | Reply address and response type follow the send code (see CanWire.ReplyLaw for which, CanReplies for what comes of it); the buffers keep their contents. |
| CanReassembly.CanReceiver.ResetAll | comm/comm_can.c:1705-1711 | All offsets become zero, nothing else changes. |
| CanReassembly.CanReceiver.FinishBuffer | comm/comm_can.c:1690-1746 | The first buffer at the announced length is freed and delivered iff its CRC fits and, for the second motor of the same controller, its command is not blocked; without such a buffer all are reset; a length over the buffer size changes nothing. |
| CanReassembly.CanReceiver.ProcessRxBuffer | comm/comm_can.c:1675-1747 | The whole end-of-transmission command: new state and delivery. |
| CanReassembly.CanReceiver.ProcessShortBuffer | comm/comm_can.c:1749-1788 | A short buffer is delivered at once, unless its command is blocked, and does not touch the reassembly. |
| CanReassembly.CanReceiver.DecodeMsg | comm/comm_can.c:1622-1788 | For every frame the receiver's state and deliveries are those of `Step`; every offset stays in 0..RX_BUFFER_SIZE. |
| CanReassembly.PadIsIgnored | comm/comm_can.c:1622-1788 | Registers behind the transmitted data never influence state or delivery. |
| CanWire.FillLaw | comm/comm_can.c:1622-1673 | A fragment is copied, byte by byte, to the first buffer at its offset, or to buffer 0 if it starts a payload and none is idle; that buffer then stands behind it, every other byte and offset stays. |
| CanWire.StrayFill | comm/comm_can.c:1635-1641 | A fragment for which no buffer stands at its offset, and one that does not fit, changes nothing. |
| CanWire.TrailerLaw | comm/comm_can.c:1690-1746 | The trailer frees the first buffer at its length whatever the CRC says; the payload is processed with a reply, forwarded, or processed without one by send code 0 or 3, 1 and 2, if the CRC fits and no command 1, 2, 3, 73 or 81 comes for the second motor of the same controller. |
| CanWire.LostTrailer | comm/comm_can.c:1693-1711 | A trailer that finds no buffer puts all offsets to zero, unless its length is over the buffer size. |
| CanWire.ShortLaw | comm/comm_can.c:1749-1788 | A short buffer is delivered from the frame under the same rules. |
| CanWire.ReplyLaw | comm/comm_can.c:1680-1688 | Codes 0 and 3 make the sender of the frame the one to reply to, other codes keep the address; the reply is of code 0 for code 3, else of code 1; no other frame changes this. |
| CanReassembly.RunLocal | comm/comm_can.c:1722-1730 | For every sequence of frames that name a command: sent to the second motor of the same controller they do to the buffers what they do from the bus, and exactly the payloads with a blocked command are withheld. |
| CanStabilization.RunOfTransmission | comm/comm_can.c:443-505 | What the receiver makes of all frames of a transmission, from any fragment on. |
| CanStabilization.Undisturbed | comm/comm_can.c:1622-1747 | A transmission with its first i bytes in buffer c arrives and frees c, if no lower buffer stands at an offset it still has to pass. |
| CanStabilization.FreesLowestDiverter | comm/comm_can.c:1622-1747 | From any state a transmission ends by freeing a buffer d at or below its own; everything below d is untouched and stands at none of the remaining offsets. |
| CanStabilization.ArrivesUnlessDiverted | comm/comm_can.c:1622-1747 | From any state: the payload is delivered intact if no buffer below the starting one stands at an offset where it is cut. |
| CanStabilization.DivertedIff | comm/comm_can.c:1622-1747 | A transmission ends in another buffer iff a lower one stands at one of its cuts, and then in a lower one. |
| CanStabilization.RetryArrives | comm/comm_can.c:1622-1747 | Self-stabilisation: from any in-range state, after one transmission of 7..RX_BUFFER_SIZE bytes, whatever became of it, the next one of that length is delivered intact and leaves the offsets as they are, so every later one is too. |
| CanStabilization.SentTwiceArrives | comm/comm_can.c:443-505 | The same payload sent twice in a row is delivered at least once from any state, for all four send codes and any number of buffers. |
| CanStabilization.LossesAreBounded | comm/comm_can.c:1622-1747 | From any in-range state, of any number of transmissions of any lengths in 7..RX_BUFFER_SIZE, one after the other, at most RX_BUFFER_NUM - 1 do not deliver exactly their payload. |
| CanStabilization.LocalRetryArrives | comm/comm_can.c:293-302 | On the local path the second of two equal transmissions arrives iff its command is not blocked. |
| CanStabilization.RunConcat | comm/comm_can.c:1560-1788 | Processing two frame sequences one after the other is processing their concatenation. |
| CanInterleaving.WholeTransmission | comm/comm_can.c:443-505 | A sender scheduled to its end has sent exactly the frames of `SendBuffer`. |
| CanInterleaving.IdleBufferExists | comm/comm_can.c:1628-1641 | Pigeonhole: with no more started transmissions than buffers that were not stale, one that starts finds an idle buffer. |
| CanInterleaving.FindsOwn | comm/comm_can.c:1654-1659 | While started transmissions stand at different offsets, and at none of a stale buffer, each fragment finds the buffer of its own transmission. |
| CanInterleaving.FillKeepsInv | comm/comm_can.c:1622-1673 | A fill keeps every buffer's prefix equal to a prefix of the payload it collects. |
| CanInterleaving.FinishKeepsInv | comm/comm_can.c:1675-1747 | The trailer delivers exactly its own payload and gives back only its own buffer. |
| CanInterleaving.ScheduleKeepsInv | comm/comm_can.c:1622-1788 | The assignment of buffers to transmissions, idle and stale ones included, is kept over every schedule, and the output is the expected one. |
| CanInterleaving.IdleApart | comm/comm_can.c:1622-1788 | From all-idle the condition is on the transmissions alone: at most RX_BUFFER_NUM started, no two at the same non-zero offset. |
| CanInterleaving.InterleavingsArrive | comm/comm_can.c:1622-1788 | From every in-range state: an interleaving whose started transmissions never stand at the same offset, nor at that of a stale buffer, and never outnumber the other buffers, delivers every payload intact, in the order the transmissions end, leaves the stale buffers as they were and returns every other one to offset 0. |
| CanReplies.SenderGetsReply | comm/comm_can.c:1680-1688 | After a transmission of any length into any receiver state, arrived or not, the reply address is its sender for codes 0 and 3 and unchanged for others. |
| CanReplies.RepliesGoHome | comm/comm_can.c:1556-1558 | In every interleaving that `InterleavingsArrive` covers, each payload that asks for a reply is answered once, to its own sender and with its own code, whoever finished in between. |
| CanReplies.AnswerComesBack | comm/comm_can.c:434-441 | There and back between two controllers: a request of code 0 or 3 is processed, the answer goes to the one that asked, and is there passed on for code 0 and processed for code 3. |
| CanProvenance.AfterIsRun | comm/comm_can.c:1560-1788 | The state after n frames is the one that processing them yields. |
| CanProvenance.PrefixesAreChains | comm/comm_can.c:1622-1747 | For every frame sequence each buffer's prefix is the concatenation of a gap-free chain of fragments that arrived in that order. |
| CanProvenance.DeliveredIsChain | comm/comm_can.c:1690-1746 | Whatever a process command delivers is such a chain with exactly the announced length and CRC. |
| CanProvenance.LogsAreDisjoint | comm/comm_can.c:1622-1747 | No fragment is ever in two buffers. |
| CanProvenance.GoneForGood | comm/comm_can.c:1622-1747 | A fragment that left the buffers never comes back. |
| CanProvenance.DeliveredOnce | comm/comm_can.c:1675-1747 | Two deliveries of any run have no fragment in common. |
| RxRing.RxState.constructor | comm/comm_can.c:149 | Both indices start at zero. |
| RxRing.RxState.Store | comm/comm_can.c:1300-1306 | The read thread stores the frame in the write slot and wraps the index. |
| RxRing.RxState.GetRxFrame | comm/comm_can.c:1187-1211 | Hands out the read slot, if any, and advances with wrap. |
| RxRing.RxState.CopyFrame | comm/comm_can.c:1389-1391 | The copy made after the mutex is released reads the slot as it is then. |
| RxRing.ActRefinesQueue | comm/comm_can.c:1183-1214 | Every atomic action of either thread keeps the ring in step with an unbounded queue while at most 49 frames are unread, also between fetch and copy. |
| RxRing.RunRefinesQueue | comm/comm_can.c:1183-1214 | The same over every interleaving. |
| RxRing.ProcessedIsPrefixOfReceived | comm/comm_can.c:1298-1311 | For every interleaving from the empty ring that stays within the bound, the frames processed are exactly a prefix of the frames received. |
| RxRing.OverrunLosesFrames | comm/comm_can.c:1189-1194 | The bound is exact: with one frame more the ring looks empty, and a slot still to be copied is overwritten. |
| BmsCodec.DecEnc | util/buffer.c:24-27 | The 16-bit codec reads back every signed value it writes. |
| BmsCodec.BmsModule.constructor | bms.c:53-68 | The values of `Initial`: nobody owns the receiver, all values are zero, nothing was heard since time 0. |
| BmsCodec.BmsModule.SendChunk | bms.c:598-610 | Up to three values with their index and the count make one frame. |
| BmsCodec.BmsModule.SendValues | bms.c:597-611 | The loop sends all values, three a frame, in order. |
| BmsCodec.BmsModule.PackBalance | bms.c:615-618 | Bit i of the word is the balance state of cell i, and no other bit is set. |
| BmsCodec.BmsModule.SendStatusCan | bms.c:591-655 | The cell, balance, temperature and humidity frames of the report, in order. |
| BmsCodec.BmsModule.ReadValues | bms.c:234-244 | The receiver's loop stores the values from the announced index on, cut off at the end of the array. |
| BmsCodec.BmsModule.ReadBalance | bms.c:256-266 | The balance bits of the announced cells are taken from the 56-bit word, the others stay. |
| BmsCodec.BmsModule.ProcessCanFrame | bms.c:227-305 | A frame does what `ProcessFrame` says, which the laws in BmsWire spell out. |
| BmsWire.EncIsBigEndian | util/buffer.c:24-27 | A value is two bytes, the high one first, negative ones modulo 2 to the 16. |
| BmsWire.DecIsBigEndian | util/buffer.c:155-160 | And is read as such, with the sign in the top bit. |
| BmsWire.TakeOver | bms.c:230-233 | A frame of the owner, and of anybody once the last one taken is more than 20000 ticks old, makes its sender the owner and restarts the time. |
| BmsWire.OthersAreIgnored | bms.c:230 | Until then frames of others change nothing at all. |
| BmsWire.CellFrameLaw | bms.c:227-245 | Which entries of the cell voltages a frame replaces, from which two of its bytes, and the count it announces; everything else stays. |
| BmsWire.TempFrameLaw | bms.c:270-288 | The same for temperatures. |
| BmsWire.BalFrameLaw | bms.c:248-268 | The state of cell i is bit i % 8 of byte 7 - i / 8 of the frame, for the announced cells; others stay. |
| BmsWire.HumFrameLaw | bms.c:291-305 | Three values by position, and the pressure only of a frame of full length. |
| BmsWire.ReportLayout | bms.c:591-655 | The whole report frame by frame: cells by threes with their index and the full count, the balance frame, temperatures by threes with a count of at most 50, the humidity frame. |
| BmsWire.BalFrameBits | bms.c:613-626 | The balance frame has bit i % 8 of byte 7 - i / 8 set iff cell i balances, and no bit beyond the cells. |
| BmsWire.HumFrameBytes | bms.c:647-655 | The four values of the humidity frame in their places. |
| BmsRoundTrip.ChunksArrive | bms.c:227-245 | All chunks of a value list, in order, reproduce the list and its count and leave the rest of the array. |
| BmsRoundTrip.ValuesArrive | bms.c:597-611 | The same for any list; without values the receiver's count stays. |
| BmsRoundTrip.BalWordBit | bms.c:264 | Bit i of the packed word is the state of cell i. |
| BmsRoundTrip.BalFrameReadsBack | bms.c:613-626 | The 56-bit word sent as seven bytes and read as two 32-bit words, the first one masked, is the same word. |
| BmsRoundTrip.BalArrives | bms.c:248-268 | The balance frame reproduces every balance bit of up to 50 cells. |
| BmsRoundTrip.HumArrives | bms.c:291-305 | Humidity, its temperature, chip temperature and pressure arrive. |
| BmsRoundTrip.StatusRoundTrip | bms.c:591-655 | For 0 to 255 announced cells and any number of temperatures, a receiver that the sender owns, or that has taken no frame for more than 20000 ticks, ends up with every cell voltage, balance bit, temperature and non-zero count, whenever the frames arrive. |
| BmsWire.ReportArrives | bms.c:227-305 | The round trip place by place: which of the 50 entries of each array is the sender's afterwards and which the receiver's own. |
| BmsWire.FirstReportArrives | bms.c:230 | From system start, a report that begins later than two seconds is received whole, whoever sends it. |
| BmsWire.EarlyFramesAreIgnored | bms.c:230 | Before that, no sequence of frames changes anything. |
| BmsRoundTrip.ForeignFramesAreIgnored | bms.c:230-232 | While the owner is never silent for more than two seconds, frames of other senders anywhere in between change nothing. |
| BmsRoundTrip.SharedBusRoundTrip | bms.c:227-305 | So every merge of the report with frames of other senders transfers what the report transfers alone. |
| BmsRoundTrip.CountsArriveIff | bms.c:591-648 | A count arrives iff it is not zero or the receiver's was zero before. |
| BmsRoundTrip.CountsOfNothingAreLost | bms.c:591-648 | A sender that has lost its only cell and temperature leaves the receiver with one of each. |
| BmsTrackers.BmsStats.constructor | bms.c:56-67 | No BMS is tracked at first. |
| BmsTrackers.BmsStats.Keep | bms.c:150-156 | A report replaces the tracked one iff nobody is tracked, that one is older than two seconds, the new one is more limiting, or it has the same sender. |
| BmsTrackers.BmsStats.ProcessStat | bms.c:147-188 | What one report does to each of the five trackers. |
| BmsTrackers.BmsStats.DisableExpired | bms.c:354-369 | Exactly the expired trackers are disabled. |
| BmsTrackers.DisableLaw | bms.c:354-358 | A tracker whose report is more than 20000 ticks old loses its id and nothing else, any other stays. |
| BmsTrackers.LimiterSeesFreshReports | bms.c:364-369 | After the limiter has run it sees only reports of the last two seconds. |
| BmsTrackers.ReplacedIff | bms.c:147-188 | For each tracker by name, the exact comparison under which a report replaces what it holds. |
| BmsTrackers.GenuineIsFresh | bms.c:147-188 | In a run where every BMS that reported does so again within two seconds, a tracker holding the last report of its sender never expires. |
| BmsTrackers.GenuineStays | bms.c:147-188 | Such a tracker stays so, never gets less limiting, and covers the report just made. |
| BmsTrackers.GenuineOrWaiting | bms.c:147-188 | Until then its old sender has been silent. |
| BmsTrackers.TrackersConverge | bms.c:147-188 | After two full rounds in any order each of the five trackers equals the true extreme over the fleet and stays there, whatever it held at first about a member. |
| BmsTrackers.TrackersAreExtremes | bms.c:147-188 | In the readings themselves: after two rounds no member is warmer, emptier or fuller, or has a lower or higher cell, than the five trackers say. |
| BmsTrackers.StaleStartConverges | bms.c:147-188 | From any start at all, also with a BMS that has left the bus: one full round after the first report that comes when the start is stale, and from then on. |
| BmsTrackers.OneRoundConverges | bms.c:147-188 | One round is enough, in every such run, for a tracker that holds nobody, or whose sender is now the most limiting member, or that holds less than some member reports. |
| BmsTrackers.OneRoundSufficesIff | bms.c:147-188 | And only for these: for every kind of tracker, start and fleet, one round suffices in all runs iff one of the three holds. |
| BmsTrackers.OneRoundIsNotEnough | bms.c:147-188 | A run and a start state for which one round is not enough. |
| BmsLimits.SpanIsPositive | bms.c:377-391 | Interpolation is only evaluated with a strictly positive span, for every configuration including equal or inverted limits. |
| BmsLimits.MapIsShare | util/utils_math.h:205-207 | The linear map to zero is the remaining share of the current. |
| BmsLimits.RisingLimit | bms.c:438-453 | The cell voltage limit for regeneration never divides by zero and leaves a share between nothing and all of the configured current. |
| BmsLimits.FallingLimit | bms.c:404-419 | The same for limits that set in while a value falls. |
| BmsLimits.TempLimits | bms.c:371-402 | One bound, from the larger configured current, caps both directions and keeps their signs. |
| BmsLimits.UpdateLimits | bms.c:360-471 | The limiter as a whole computes `NewMin` and `NewMax`, which `LimitsAreExact` gives in the values of the configuration and the trackers. |
| BmsLimits.LimitsAreExact | bms.c:360-471 | Both limits exactly: the least of the incoming magnitude, the configured one and what each enabled limit of a live tracker leaves: all before its start, nothing beyond its end, the linear share in between; temperature of the larger configured current, charge and lowest cell of the maximum, highest cell of the minimum. |
| BmsLimits.ScaleIsProduct | bms.c:386-391 | What a limit leaves is its share times the current. |
| BmsLimits.CutOffs | bms.c:371-453 | A tracker beyond the end of an enabled limit makes the limits it governs zero. |
| BmsLimits.NoLimit | bms.c:455-470 | Where no enabled limit of a live tracker has set in, the outcome is the one of lesser magnitude of the incoming and the configured current. |
| BmsLimits.NeverRaised | bms.c:455-470 | The outcome never exceeds the incoming or the configured magnitude; a reduced limit keeps the configured sign. |
| BmsLimits.LimitsAreMonotone | bms.c:360-471 | Neither limit rises with temperature, with the highest cell voltage, or with a falling state of charge or lowest cell; a tracker that dies only relaxes. |
| BmsFleet.FleetIsProtected | bms.c:354-471 | Two rounds after any start, both limits are at most what each single BMS of the fleet would allow by itself. |
| BmsFleet.OneStopsTheFleet | bms.c:354-471 | So one BMS beyond the end of an enabled limit, in degrees, share of charge or volts, stops the current of the whole fleet in the directions it governs. |
| BmsFleet.SilentFleetDoesNotLimit | bms.c:354-369 | And reports older than two seconds limit nothing. |
| PpmApp.PpmThread.constructor | applications/app_ppm.c:49-56 | The initial values of the static variables. |
| PpmApp.PpmThread.Reconfigure | applications/app_ppm.c:60-69 | A new configuration restarts the counter and sets the hysteresis. |
| PpmApp.PpmThread.BrakeRevHyst | applications/app_ppm.c:227-299 | Brake, idle and reverse state, current and brake flag of the hysteresis type (the values are in PpmDrive.HystCommand and HystProgress). |
| PpmApp.PpmThread.CurrentControl | applications/app_ppm.c:300-328 | The other current types. |
| PpmApp.PpmThread.SetpointControl | applications/app_ppm.c:330-380 | Duty cycle, speed and position types are silent while the counter is below its threshold; a position between 0 and 360 degrees is commanded only in position mode or near the present one. |
| PpmApp.PpmThread.CheckIdlePulses | applications/app_ppm.c:385-401 | An iteration without progress restarts the counter; after a timeout the motor is not driven at all. |
| PpmApp.PpmThread.TractionControl | applications/app_ppm.c:500-559 | The local current after traction control. |
| PpmApp.PpmThread.DriveMotor | applications/app_ppm.c:432-559 | The last command to the local motor. |
| PpmApp.PpmThread.RunOnce | applications/app_ppm.c:164-563 | One iteration: new state and command, for every input, including disabled output, timeout and fault (the commands are given in values by the laws in PpmDrive). |
| PpmSafety.RunKeepsInv | applications/app_ppm.c:171-188 | In every run, with starts and reconfigurations, the counter is 0, its previous value or at least 50, and below 50 it is the length of the present idle streak, plus what it held at the start if the streak reaches back to it. |
| PpmSafety.EngagedDrivesIff | applications/app_ppm.c:386-401 | While the counter is below its threshold the motor is driven exactly by the duty branch of the smart reverse type. |
| PpmSafety.DrivingTakesIdle | applications/app_ppm.c:386-560 | Safe start: in every run and every type but smart reverse, driving the motor takes 50 consecutive idle iterations since the last start, configuration, timeout or (unless exempt) fault, or right after a start 50 less what the counter held then. |
| PpmSafety.DrivingTakesFullWait | applications/app.c:92-152 | If a reconfiguration follows each start before the next iteration, it takes the full 50 since the last start. |
| PpmSafety.StartWaitsIff | applications/app_ppm.c:71-74 | From every reachable state: the thread waits after a start for the full 50, whatever follows until the next start, iff the counter is 0 then. |
| PpmSafety.CarriedCounterShortens | applications/app_ppm.c:71-74 | A thread started with counter k >= 1 drives after 50 - k idle iterations (none from 50 on). |
| PpmSafety.RestartDrivesAtOnce | applications/app_ppm.c:71-74 | Fifty idle iterations, a start of the thread and a full input: the motor is driven, with nothing idle seen since the start. |
| PpmSafety.SmartRevBypassesSafeStart | applications/app_ppm.c:432-449 | A fresh smart reverse thread with safe start on sets a duty cycle at once. |
| PpmSafety.IdleArms | applications/app_ppm.c:386-391 | Idle iterations in a row count up the counter one by one; only one can be lost. |
| PpmSafety.ThresholdReleases | applications/app_ppm.c:386-401 | A counter at its threshold lets exactly the command pass that would be given without safe start. |
| PpmSafety.IdleReleases | applications/app_ppm.c:386-401 | The partner of the safe start: after 50 idle iterations in a row, 51 in one case, the motor obeys every input as if there were no safe start. |
| PpmSafety.InterlockStep | applications/app_ppm.c:230-286 | The only ways the idle state moves on: a brake, an exact idle after it, or already reversing fast. |
| PpmSafety.InterlockHolds | applications/app_ppm.c:230-286 | In every run the idle state records what happened since it was last zero. |
| PpmSafety.ForwardInputIsNotReverse | applications/app_ppm.c:240-256 | With non-negative current limits an input that is not negative never commands a reverse current. |
| PpmSafety.ReverseIsEarned | applications/app_ppm.c:230-293 | Reverse interlock: a reverse current comes from a negative input; above -max_erpm_for_dir it means that a brake phase and then an exact idle, or an iteration already at reverse speed, happened since `did_idle_once` was last 0; it is never issued while `force_brake` is set. |
| PpmSafety.ReverseIsSlow | applications/app_ppm.c:236-262 | With non-negative hysteresis a current for a negative input means that the motor turns forward no faster than max_erpm_for_dir plus the hysteresis. |
| PpmSafety.HysteresisIsConfigured | applications/app_ppm.c:60-69 | From the first configuration on the hysteresis is a fifth of max_erpm_for_dir. |
| PpmSafety.ReverseIsSlowInRuns | applications/app_ppm.c:227-299 | So in every such run reverse is commanded only up to 1.2 times max_erpm_for_dir. |
| PpmSafety.ForcedBrakeLasts | applications/app_ppm.c:232-240 | Braking that was forced in a run stays forced until an iteration is below max_erpm_for_dir less the hysteresis. |
| PpmDrive.HystCommand | applications/app_ppm.c:227-299 | The command of the hysteresis type in the values it reads: acceleration, regeneration, braking or reverse, and when each. |
| PpmDrive.HystProgress | applications/app_ppm.c:230-286 | How `force_brake` and `did_idle_once` move, in speeds and inputs. |
| PpmDrive.ForwardForgetsReverse | applications/app_ppm.c:240-256 | After a forward input at low speed the next negative one brakes, whatever was earned before. |
| PpmDrive.TwoWayCommand | applications/app_ppm.c:300-309 | The two-way types: the motor limit if input and speed agree in sign, else the brake limit. |
| PpmDrive.OneWayCommand | applications/app_ppm.c:311-328 | The forward types: a negative input brakes with its share of the brake limit. |
| PpmDrive.SetpointCommand | applications/app_ppm.c:330-352 | Duty cycle and speed types: the input times the limit. |
| PpmDrive.PositionCommand | applications/app_ppm.c:354-380 | Position types: the angle of the input up to whole turns, if the motor is within 10 degrees or holds a position already, else nothing. |
| PpmDrive.SmartRevCommand | applications/app_ppm.c:432-449 | Smart reverse moves the duty cycle by one step towards the configured share of the input, and not beyond. |
| PpmDrive.SmartRevLeft | applications/app_ppm.c:463-466 | Outside of it the present duty cycle is remembered to start from. |
| PpmDrive.TractionShare | applications/app_ppm.c:500-559 | Traction control takes off what the local wheel is faster by, in the direction of the current, relative to the configured difference, and drops less than the least current. |
| PpmDrive.IdlesAreSmall | applications/app_ppm.c:295-358 | Which inputs count as idle: below 0.02 for positions, below 0.001 otherwise. |
| PpmDrive.ErrorLasts | applications/app_ppm.c:386-401 | After a timeout nothing is commanded exactly while the counter is below 50 and counts. |
| PpmDrive.TimeoutHoldsBack | applications/app_ppm.c:171-188 | A timeout brakes with its own current, restarts the counter, and the next iteration is silent. |
| PpmDrive.FaultHoldsBack | applications/app_ppm.c:186-188 | A fault restarts the counter and leaves the motor without current, duty cycle, speed or position, unless the mode exempts it. |
| Winch.Skypuff.constructor | applications/app_skypuff.c:259-267 | The machine starts uninitialized. |
| Winch.Skypuff.DoBrake | applications/app_skypuff.c:159-174 | Braking at the present position. |
| Winch.Skypuff.DoUnwind | applications/app_skypuff.c:176-191 | Unwinding commands its current and restarts the peak. |
| Winch.Skypuff.DoRewind | applications/app_skypuff.c:193-208 | Rewinding commands its current and restarts the valley. |
| Winch.Skypuff.DoSlow | applications/app_skypuff.c:222-237 | Slow commands its constant speed and notes the present one. |
| Winch.Skypuff.BrakeOrSlowing | applications/app_skypuff.c:306-335 | Mode changes iff the rope is in the inner braking zone or comes in too fast. |
| Winch.Skypuff.Loop | applications/app_skypuff.c:377-545 | One pass of the loop in every mode. |
| Winch.Skypuff.SlowLoop | applications/app_skypuff.c:485-541 | The slow mode's pass. |
| Winch.NextMode | applications/app_skypuff.c:377-545 | The next mode of every mode, in distances, speeds, currents and the configuration. |
| Winch.NextCommand | applications/app_skypuff.c:159-237 | What a change of mode commands: the current or the speed of the mode, against the side of the rope; a brake; or a release. |
| Winch.CommandFitsMode | applications/app_skypuff.c:377-545 | In every run the command in force is one of the present mode. |
| Winch.RemembersLastLoop | applications/app_skypuff.c:485-497 | In every run the slow mode compares with the speed of the loop before, and braking with its distance. |
| Winch.SlowStopsAtTurn | applications/app_skypuff.c:485-497 | So a rope that stops or turns round between two loops ends the slow mode in braking. |
| Winch.PeakOrValley | applications/app_skypuff.c:402-453 | In every run `prev_abs_tac` is the greatest distance since unwinding began, and the least since rewinding began. |
| Winch.RewindsBelowPeak | applications/app_skypuff.c:402-434 | Unwinding turns into rewinding exactly when the rope is more than the trigger below its peak and no braking or slowing rule fires. |
| Winch.UnwindsAboveValley | applications/app_skypuff.c:435-453 | And symmetrically back. |
| Winch.PullsTowardZero | applications/app_skypuff.c:176-208 | If the tachometer moves by less than braking_length - overwinding per loop, then in every run the last current while winding is that of the mode, negative on the positive side of the tachometer and positive on the other, and the rope is at least that far out for non-negative overwinding. |
| Winch.PullOpposesTachometer | applications/app_skypuff.c:176-208 | With positive currents the product of tachometer and current is then negative in both winding modes. |
| Winch.DistanceBoundIff | applications/app_skypuff.c:306-335 | That distance is kept in all such runs iff the overwinding is not negative. |
| Winch.SettledStays | applications/app_skypuff.c:380-542 | A motionless rope does not leave a settled mode. |
| Winch.ComesToRest | applications/app_skypuff.c:380-542 | From any state a motionless winch changes mode at most twice and then never again. |
| FlashIntegrity.MemoryMap | flash_helper.c:41-76 | Flag and CRC are the last two words of the scanned area; sizes and places are those of the defines. |
| FlashIntegrity.ChunkDoesNotStraddle | flash_helper.c:377-397 | No chunk reaches over the end of the vector table or of the application. |
| FlashIntegrity.ImageWord | flash_helper.c:321-333 | The image is words 0 to 4095 and 12288 to 131069 of the flash, in this order. |
| FlashIntegrity.KnownValue | util/crc.c:75-93 | A zero word after a reset gives 0xC704DD7B, the check value of this CRC. |
| FlashIntegrity.FlashHelper.Crc32 | util/crc.c:75-83 | The loop feeds every word of the range to the CRC unit, in order. |
| FlashIntegrity.FlashHelper.VerifyFlashMemory | flash_helper.c:317-375 | Outcome and new flash contents of the one-shot check, for a set flag, a first boot and a failing flash controller. |
| FlashIntegrity.FlashHelper.VerifyFlashMemoryChunk | flash_helper.c:377-408 | Outcome, index and CRC register of one incremental call. |
| FlashIntegrity.ChunkOfImage | flash_helper.c:392-397 | Chunk k is the k-th kilobyte of vector table and application put together. |
| FlashIntegrity.CycleFeedsImage | flash_helper.c:377-408 | One cycle of ceil(total/1024) = 480 calls feeds each word once and in order and is back at its start. |
| FlashIntegrity.CycleRefinesOneShot | flash_helper.c:321-408 | The cycle reports corruption, with its last call only, iff the one-shot check would. |
| FlashIntegrity.ScanRecovers | flash_helper.c:377-408 | From any index and register the scan is at its start after the rest of the cycle, and the next cycle reports, with its last call only, what the one-shot check would: a corruption is found within two cycles. |
| FlashIntegrity.OneWordIsNoticed | flash_helper.c:321-336 | If an image checks and any one of its words changes, in whatever bits, the check reports corruption. |
| FlashIntegrity.ScanNoticesOneWord | flash_helper.c:377-408 | And the incremental scan reports it within 960 calls, wherever it stands. |
| FlashIntegrity.RestIsNotChecked | flash_helper.c:327-328 | Words outside the image never change the verdict. |
| FlashIntegrity.CrcUnitZeroIff | lispBM/README.md:844 | With the polynomial 0x4C11DB7 the CRC unit maps only zero to zero. |
| FlashIntegrity.ChecksIffCrcStored | flash_helper.c:321-336 | The CRC over the image is zero iff its last word is the CRC of all words before it. |
| FlashIntegrity.StorePass | flash_helper.c:337-373 | The first-boot pass clears the flag, programs that CRC and changes nothing else. |
| FlashIntegrity.StoreThenVerify | flash_helper.c:317-375 | The check after the first-boot pass finds no fault iff old CRC word & crc == crc, where crc is that of the image before the pass with the flag cleared; over a blank word it always does. |
| FlashIntegrity.StoreCanFail | flash_helper.c:337-373 | Images for which the store fails: over a zero CRC word it does for every value but one of the word before the flag. |
| FlashIntegrity.FailedStore | flash_helper.c:343-368 | A failing first-boot pass reports corruption, and if only the CRC was not programmed the next check reports it again unless the old word is the CRC that is due. |
| CodeCache.CodeStore.constructor | flash_helper.c:99 | Nothing is known about any code at start. |
| CodeCache.CodeStore.EraseSector | flash_helper.c:414-436 | The whole sector becomes blank and nothing else; if the flash controller fails, whatever it left there and nothing else; nothing if the motor is not released. |
| CodeCache.CodeStore.EraseCode | flash_helper.c:184-208 | New flash, cache and status. |
| CodeCache.CodeStore.WriteData | flash_helper.c:438-470 | Bytes are programmed in order up to the first error. |
| CodeCache.CodeStore.WriteCode | flash_helper.c:210-214 | The cache forgets the sector, then it is programmed. |
| CodeCache.CodeStore.QmluiCheck | flash_helper.c:477-495 | The cached verdict is the validity of header length and CRC of the sector's bytes, read within the sector. |
| CodeCache.CodeStore.GetCodeData | flash_helper.c:216-224 | The address behind the header iff the code is valid. |
| CodeCache.CodeStore.GetCodeSize | flash_helper.c:230-240 | The length in the header iff the code is valid, else zero. |
| CodeCache.CodeStore.GetCodeFlags | flash_helper.c:242-252 | The flags in the header iff the code is valid, else zero. |
| CodeCache.SectorsAreSeparate | flash_helper.c:184-214 | Erasing or writing one code leaves the others alone, unless a write clears bits beyond its sector. |
| CodeCache.StepKeepsCoherent | flash_helper.c:184-252 | Every such call keeps a checked verdict equal to the validity of the bytes now in flash. |
| CodeCache.CacheIsTransparent | flash_helper.c:184-252 | In every run of such calls, in particular if writes stay inside the sector, the cache is coherent, and no answer differs from that of a system that checks on every read. |
| CodeCache.FreshCacheIsTransparent | flash_helper.c:184-252 | So it is from every start of the system, whatever the flash holds. |
| CodeBytes.WriteLaw | flash_helper.c:438-470 | Which bytes of the flash a write ands in, by address, and what it returns. |
| CodeBytes.EraseLaw | flash_helper.c:184-208 | Which bytes an erase changes, by address, and what it returns. |
| CodeBytes.ReadLaw | flash_helper.c:216-252 | In any coherent state the readers answer by length, CRC and flags in the bytes at the base address of the code. |
| CodeBytes.AnswersTellTheFlash | flash_helper.c:184-252 | After every run of erases, writes inside their sectors and reads from a start of the system, the answers are those of the bytes now in flash, at 0xA0000, 0xC0000 and 0x80000. |
| CodeBytes.DamageIsNoticed | flash_helper.c:477-495 | With the CRC of the source, stored code that checks no longer does when any one byte of its CRC, flags or code changes. |
| CodeCache.InsideNeverSpills | flash_helper.c:210-214 | A write that ends within its sector is such a call. |
| CodeCache.KeepsCoherentIff | flash_helper.c:210-214 | For every CRC that tells zeros from zeros with one other byte: a call keeps every coherent cache coherent iff it does not clear a bit in the sector of another code. |
| CodeCache.SpillFalsifiesCacheIff | flash_helper.c:210-214 | The same for the CRC of the source: a write that spills does falsify the cache of some coherent state. |
| CodeCache.EraseBlanksIff | flash_helper.c:191-203 | After a completed erase the sector is blank iff it was before or its first byte was not. |
| CodeCache.EraseKeepsData | flash_helper.c:184-214 | From a blank sector, one byte written behind the first one survives an erase that reports completion. |
| Crc16.TableIsShiftByte | util/crc.c:26-54 | Each entry of the table is eight steps of the shift register with the polynomial 0x1021. |
| Crc16.Rolling | util/crc.c:56-61 | The loop folds the table step over the bytes. |
| Crc16.Compute | util/crc.c:63-65 | From a start value of zero. |
| Crc16.UpdateIsShiftByte | util/crc.c:56-61 | One step of the table-driven loop is the byte put on top of the register and eight shifts. |
| Crc16.TableRefinesRegister | util/crc.c:56-61 | So for every buffer the loop computes what the bit-serial shift register does. |
| Crc16.OneByteIsNoticed | util/crc.c:56-65 | Buffers of equal length that differ in one byte have different CRCs. |
| Crc16.CheckValue | util/crc.c:63-65 | The CRC of the digits 1 to 9 is 0x31C3, the check value of CRC-16/XMODEM. |
| Crc16.UpdateZeroIff | util/crc.c:58 | A zero byte maps only the checksum zero to zero, and from zero every other byte shows. |
| Crc16.CrcIsDetecting | util/crc.c:56-65 | The CRC of zeros is zero, that of zeros with one other byte is not. |
| SwdTap.SwdPort.Turnaround | blackmagic/swdptap.c:36-55 | One extra clock iff the direction changes. |
| SwdTap.SwdPort.SeqOut | blackmagic/swdptap.c:147-164 | The wire carries the low bits of the word, lowest first. |
| SwdTap.SwdPort.SeqOutParity | blackmagic/swdptap.c:166-190 | The same, followed by a bit that is one iff an odd number of these bits is. |
| SwdTap.SwdPort.SeqIn | blackmagic/swdptap.c:75-98 | The number the first 32 bits on the line stand for; further ones are read and dropped. |
| SwdTap.SwdPort.SeqInParity | blackmagic/swdptap.c:100-131 | That number, and the parity over all bits and the parity bit: one iff an odd number of them is. |
| SwdTap.BitIsPlace | blackmagic/swdptap.c:147-164 | Bit k on the wire is place k of the word. |
| SwdTap.WordPlaces | blackmagic/swdptap.c:75-98 | And place k of the word read is bit k of the line, for the first 32. |
| SwdTap.ParityIsOdd | blackmagic/swdptap.c:166-190 | The parity is one iff an odd number of bits is. |
| SwdTap.WordOfBits | blackmagic/swdptap.c:75-98 | Reading n bits of x back gives x modulo 2 to the n. |
| SwdTap.ParityCountsErrors | blackmagic/swdptap.c:100-131 | Parities differ iff an odd number of bits does. |
| SwdTap.ParityRoundTrip | blackmagic/swdptap.c:100-190 | Read from an undisturbed wire: the word modulo 2 to the n, the whole word from 32 ticks on, and parity result 0; the result is 1 exactly if an odd number of bits was flipped. |
| SwdTap.Transfer | blackmagic/swdptap.c:100-190 | One port reads what another has written, for every word and any number of ticks. |
| Timeout.Supervisor.constructor | timeout.c:41-48 | The initial values. |
| Timeout.Supervisor.Configure | timeout.c:86-90 | Time, brake current and mode are replaced. |
| Timeout.Supervisor.Reset | timeout.c:92-94 | The present time becomes the last update. |
| Timeout.Supervisor.FeedWDT | timeout.c:124-126 | The thread's counter goes up by one, with 32-bit wrap. |
| Timeout.Supervisor.RunTick | timeout.c:197-272 | One pass: new flags and counters, the motor commands in order, and whether the watchdog is fed. |
| Timeout.FlagsTellLastTick | timeout.c:225-244 | In every run `has_timeout` or `kill_sw_active` is set iff the last tick tripped. |
| Timeout.TripBrakesBoth | timeout.c:228-233 | A tripped tick leaves both motors with the configured brake current. |
| Timeout.ReleasesOnRisingEdge | timeout.c:225-244 | In every run the release override fires exactly when a tick trips and the one before did not; every tripped tick brakes both motors; no other tick commands anything. |
| Timeout.CommandsTellHistory | timeout.c:197-244 | The complete command list of every tick of every run from the events before it alone: the kill switch by the configured mode, the level of its pin and the application, the limit against the real time since the last reset, and whether the tick before tripped. |
| Timeout.TimesOutIff | timeout.c:225 | In every run a tick times out iff the real time since the last reset, modulo 2 to the 32 ticks, is more than the configured one; before the wrap this is the time itself. |
| Timeout.TimeoutEndsAtWrap | timeout.c:225-241 | Without a reset a tick at a multiple of 2 to the 32 after the last one commands nothing and clears the timeout. |
| Timeout.CountersCountReports | timeout.c:124-126 | A counter is the number of reports since the last tick, modulo 2 to the 32. |
| Timeout.WatchdogFedIff | timeout.c:246-267 | The watchdog is fed iff both monitored threads have reported since the last tick, up to that wrap. |
| Timeout.TimeoutExactIff | ChibiOS_3.0.5/os/rt/include/chvt.h:120-122 | The conversion of the timeout to ticks is exact iff it is at most 429496 ms. |

## Left out

- CanFrames.SendBuffer: payloads of 65536 bytes and more, whose offsets wrap; the receiver takes 512 at most.
- CanReassembly.CanReceiver.DecodeMsg: only the four buffer commands; setpoint, configuration, status and ping commands, the address filter and the selection of the second motor are not modelled, and such frames do nothing to the buffers.
- CanReassembly.RunLocal: announced payloads of no byte at all, for which the source looks at a byte that was not sent.
- CanReassembly.CanReceiver.FillRxBuffer: frames with fewer data bytes than the offset field, for which the source's copy length is negative; they are excluded by the frame type.
- CAN driver, baud rates, transmission failures and the pauses between frames. RX_BUFFER_NUM and RX_BUFFER_SIZE (at least 262; comm/packet.h:27-28 gives 512) are parameters, and the 16-bit CRC is an arbitrary function.
- RxRing.ActRefinesQueue: one ring and one processing thread; the second CAN interface has a ring of its own in the same form. Threads are interleaved atomic actions.
- BmsCodec.BmsModule.ProcessCanFrame: values are the scaled 16-bit integers of the frames, without the float rounding around them; totals, currents, state of charge and status strings of the report, forwarding to CAN and the frame type checks are not modelled.
- BmsRoundTrip.StatusRoundTrip: the time stamp of the last frame is not compared; a negative count, or more than 255 cells, is not covered.
- BmsTrackers.TrackersConverge: time is an unbounded number of ticks of 0.1 ms, without the wrap of the 32-bit clock; "at least every two seconds" is required at every report and at every call of the limiter.
- BmsLimits.UpdateLimits: over the reals, without float rounding.
- PpmApp.PpmThread.RunOnce: decoding, deadband, throttle curve and ramp are an arbitrary input; commands to other controllers over CAN, and a reconfiguration or restart in the middle of an iteration, are not modelled. Arithmetic is over the reals.
- PpmSafety.DrivingTakesIdle: the local motor only; the other controllers get the raw input in the source (applications/app_ppm.c:538-541).
- Winch.Skypuff.Loop: messages, unit conversion, terminal commands, timeout resets and the overflow of the tachometer are not modelled.
- FlashIntegrity.CycleRefinesOneShot: the flash does not change during a cycle and nobody else uses the CRC unit.
- FlashIntegrity.FlashHelper.VerifyFlashMemory: the reset after the first-boot pass is the outcome `Reboot`; a word whose programming fails is taken to be unchanged.
- CodeCache.CodeStore.WriteCode: writes beyond the end of the flash. New firmware images are written to the same sectors without clearing the cached checks and are not modelled, nor are the bootloader jump and the non-volatile memory of packages.
- SwdTap.SwdPort.SeqIn: pins and clock edges are one bit per clock; negative tick counts and the single-bit functions are not modelled. The parity accumulator of the sender is reduced to its bit 0, the only one used.
- Timeout.Supervisor.RunTick: watchdog registers, reset causes and the unmonitored build without CAN are not modelled; pin and ADC readings are inputs, and calls from other threads happen between ticks.
- Motor detection, the generated configuration codec, the other input applications, Black Magic target handling and the LispBM interpreter: dispatch and plumbing, or easier repeats of the above.
